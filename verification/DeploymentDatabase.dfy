/** The deployment database: a cache of engines behind a lock, and the seeding and repair of
    two singleton rows (src/backend/vlm_feedback_loop/db/engine.py, `init_deployment_db` and
    `close_deployment_db_resources`).

    The body under the lock is one atomic method here.  Closing is two: the cache is emptied
    under the lock, the engines are disposed afterwards without it. */
module DeploymentDatabase {
  import opened Basics

  const MODEL := "nvidia/llama-nemotron-embed-vl-1b-v2"
  const DIM := 2048
  const IMAGE := "nvcr.io/nim/nvidia/llama-nemotron-embed-vl-1b-v2:2.0.0"
  const GPU_MIN_GB := 24
  const LEGACY_MODELS: set<string> := {"nvidia/nvclip", "nvidia/nvclip-vit-h-14"}
  const LEGACY_IMAGES: set<string> := {
    "nvcr.io/nim/nvidia/llama-nemotron-embed-vl-1b-v2:1.13.0",
    "nvcr.io/nim/nvidia/llama-nemotron-embed-vl-1b-v2:1.12.0"}

  datatype Embedding = Embedding(id: string, provider: string, model: string, dim: int,
                                 endpoint: Option<string>, image: string, port: int, floorGb: int,
                                 gpu: Option<string>)

  datatype Tao = Tao(id: string, workspaceId: Option<string>, status: string)

  // ----- The repair of the embedding row -----

  /** The self-heal branches, in order. */
  function Repair(r: Embedding): Embedding {
    if r.model in LEGACY_MODELS then
      r.(model := MODEL, dim := DIM, image := IMAGE, floorGb := GPU_MIN_GB)
    else if r.model == MODEL && r.image in LEGACY_IMAGES then
      r.(image := IMAGE, floorGb := GPU_MIN_GB)
    else if r.model == MODEL && r.image == IMAGE && r.floorGb < GPU_MIN_GB then
      r.(floorGb := GPU_MIN_GB)
    else r
  }

  function Seed(id: string): Embedding {
    Embedding(id, "none", MODEL, DIM, None, IMAGE, 8001, GPU_MIN_GB, None)
  }

  /** Nothing is left to repair. */
  predicate Sound(r: Embedding) {
    && r.model !in LEGACY_MODELS
    && (r.model == MODEL ==> r.image !in LEGACY_IMAGES)
    && (r.model == MODEL && r.image == IMAGE ==> r.floorGb >= GPU_MIN_GB)
  }

  lemma CurrentIsNotLegacy()
    ensures MODEL !in LEGACY_MODELS && IMAGE !in LEGACY_IMAGES
  {
    assert |MODEL| == 36;
    assert IMAGE[49] == '2';
    assert forall i :: i in LEGACY_IMAGES ==> i[49] == '1';
  }

  /** The repair always ends sound, changes exactly the rows that are not, and a second repair
      therefore does nothing. */
  lemma RepairSettles(r: Embedding)
    ensures Sound(Repair(r))
    ensures Repair(r) == r <==> Sound(r)
    ensures Repair(Repair(r)) == Repair(r)
  {
    CurrentIsNotLegacy();
  }

  /** What an operator set survives the repair, except the fields of a legacy pin; a raised
      GPU floor is lost exactly on rows that carry one. */
  lemma RepairKeeps(r: Embedding)
    ensures var s := Repair(r);
            && s.id == r.id && s.provider == r.provider && s.port == r.port && s.gpu == r.gpu
            && s.endpoint == r.endpoint
            && (s.floorGb < r.floorGb <==>
                  && r.floorGb > GPU_MIN_GB
                  && (r.model in LEGACY_MODELS || (r.model == MODEL && r.image in LEGACY_IMAGES)))
  {
    CurrentIsNotLegacy();
  }

  // ----- One database file -----

  type Path = string

  datatype Store = Store(embedding: seq<Embedding>, tao: seq<Tao>)

  const EMPTY := Store([], [])

  /** The embedding rows after their part of a successful pass. */
  function HealEmbedding(rows: seq<Embedding>, id: string): seq<Embedding> {
    if rows == [] then [Seed(id)] else rows[0 := Repair(rows[0])]
  }

  function HealTao(rows: seq<Tao>, id: string): seq<Tao> {
    if rows == [] then [Tao(id, None, "not_bootstrapped")] else rows
  }

  predicate Singletons(s: Store) {
    |s.embedding| <= 1 && |s.tao| <= 1
  }

  /** A pass has been completed on this file. */
  predicate Healed(s: Store) {
    |s.embedding| == 1 && |s.tao| == 1 && Sound(s.embedding[0])
  }

  lemma HealingSettles(s: Store, a: string, b: string)
    ensures Singletons(s) ==> Healed(Store(HealEmbedding(s.embedding, a), HealTao(s.tao, b)))
    ensures Healed(s) ==> Store(HealEmbedding(s.embedding, a), HealTao(s.tao, b)) == s
  {
    CurrentIsNotLegacy();
    if s.embedding != [] {
      RepairSettles(s.embedding[0]);
    }
  }

  /** What a completed pass has made of the embedding row, field by field. */
  ghost predicate RowRefreshed(before: seq<Embedding>, after: Embedding) {
    if before == [] then
      && after.provider == "none" && after.model == MODEL && after.dim == 2048 && after.endpoint == None
      && after.image == IMAGE && after.port == 8001 && after.floorGb == 24 && after.gpu == None
    else
      var r := before[0];
      var oldModel := r.model in {"nvidia/nvclip", "nvidia/nvclip-vit-h-14"};
      var oldImage := r.model == MODEL && r.image in LEGACY_IMAGES;
      && after.id == r.id && after.provider == r.provider && after.endpoint == r.endpoint
      && after.port == r.port && after.gpu == r.gpu
      && after.model == (if oldModel then MODEL else r.model)
      && after.dim == (if oldModel then 2048 else r.dim)
      && after.image == (if oldModel || oldImage then IMAGE else r.image)
      && (oldModel || oldImage ==> after.floorGb == 24)
      && (!oldModel && !oldImage ==>
            after.floorGb == if r.model == MODEL && r.image == IMAGE && r.floorGb < 24 then 24 else r.floorGb)
  }

  ghost predicate Refreshed(s: Store, t: Store) {
    && |t.embedding| == 1 && RowRefreshed(s.embedding, t.embedding[0])
    && |t.tao| == 1
    && (if s.tao == [] then t.tao[0].workspaceId == None && t.tao[0].status == "not_bootstrapped" else t.tao == s.tao)
  }

  lemma PassRefreshes(s: Store, t: Store, a: string, b: string)
    requires Singletons(s) && PassLeaves(s, t, a, b, true)
    ensures Refreshed(s, t)
  {
    CurrentIsNotLegacy();
  }

  /** How a pass may leave a file: each part is done or not, and both are if it returned. */
  ghost predicate PassLeaves(s: Store, t: Store, a: string, b: string, ok: bool) {
    && (t.embedding == s.embedding || t.embedding == HealEmbedding(s.embedding, a))
    && (t.tao == s.tao || t.tao == HealTao(s.tao, b))
    && (ok ==> t == Store(HealEmbedding(s.embedding, a), HealTao(s.tao, b)))
  }

  function Stored(stores: map<Path, Store>, path: Path): Store {
    if path in stores then stores[path] else EMPTY
  }

  /** A pass was made, perhaps not to its end, on the file of one workspace; a missing file
      starts empty. */
  ghost predicate Passed(before: map<Path, Store>, after: map<Path, Store>, path: Path, ok: bool) {
    && after.Keys <= before.Keys + {path} && before.Keys <= after.Keys
    && (forall p :: p in before && p != path ==> after[p] == before[p])
    && (ok ==> path in after)
    && (path in after ==>
          exists a, b :: PassLeaves(Stored(before, path), after[path], a, b, ok))
  }

  lemma NoPass(stores: map<Path, Store>, path: Path)
    ensures Passed(stores, stores, path, false)
  {
    if path in stores {
      assert PassLeaves(Stored(stores, path), stores[path], "", "", false);
    }
  }

  lemma PassedRefreshes(before: map<Path, Store>, after: map<Path, Store>, path: Path)
    requires Passed(before, after, path, true) && Singletons(Stored(before, path))
    ensures path in after && Refreshed(Stored(before, path), after[path])
  {
    var a, b :| PassLeaves(Stored(before, path), after[path], a, b, true);
    PassRefreshes(Stored(before, path), after[path], a, b);
  }

  lemma PassSettles(s: Store, t: Store, a: string, b: string, ok: bool)
    requires Singletons(s) && PassLeaves(s, t, a, b, ok)
    ensures Singletons(t) && (ok ==> Healed(t)) && (Healed(s) ==> t == s)
  {
    HealingSettles(s, a, b);
  }

  // ----- The process-wide state -----

  datatype Step = Step(ok: bool, name: string)

  /** What may happen under the lock or between two holders of it: an open, a whole close, the
      first half of one, the disposal of one engine that such a half took out. */
  datatype Operation = Open(path: Path) | Close | BeginClose | DisposeOne(engine: nat)

  /** Cached engines are live, each under its own workspace; every other live engine has been
      taken out of the cache by a close and awaits its disposal. */
  ghost predicate Tracked(cache: map<Path, nat>, live: set<nat>, home: map<nat, Path>, closing: set<nat>, next: nat) {
    && (forall p :: p in cache ==>
          && cache[p] in live && cache[p] !in closing
          && cache[p] in home && home[cache[p]] == p)
    && closing <= live <= home.Keys
    && (forall e :: e in home ==> e < next)
    && (forall e :: e in live && e !in closing ==> home[e] in cache && cache[home[e]] == e)
  }

  lemma TrackedWithNew(cache: map<Path, nat>, live: set<nat>, home: map<nat, Path>, closing: set<nat>,
                       next: nat, path: Path)
    requires Tracked(cache, live, home, closing, next) && path !in cache
    ensures next !in live && next !in home
    ensures Tracked(cache[path := next], live + {next}, home[next := path], closing, next + 1)
    ensures Tracked(cache, live + {next} - {next}, home[next := path], closing, next + 1)
  {
    assert live + {next} - {next} == live;
  }

  class Deployments {
    const oracle: nat -> Step
    var clock: nat
    var nextEngine: nat
    var stores: map<Path, Store>
    var cache: map<Path, nat>
    var live: set<nat>
    var home: map<nat, Path>
    var closing: set<nat>
    ghost var faults: nat

    constructor (oracle: nat -> Step, stores: map<Path, Store>)
      requires forall p :: p in stores ==> Singletons(stores[p])
      ensures this.stores == stores && cache == map[] && live == {} && closing == {} && Valid()
    {
      this.oracle, this.clock, this.nextEngine, this.faults := oracle, 0, 0, 0;
      this.stores, this.cache, this.live, this.home, this.closing := stores, map[], {}, map[], {};
    }

    ghost predicate Valid()
      reads this
    {
      && Tracked(cache, live, home, closing, nextEngine)
      && forall p :: p in stores ==> Singletons(stores[p])
    }

    /** Apart from engines that a close is about to dispose, a workspace has at most one live
        engine, and it is the cached one. */
    lemma OneLiveEngine(p: Path, d: nat, e: nat)
      requires Valid()
      requires d in live && e in live && d !in closing && e !in closing
      requires home[d] == p && home[e] == p
      ensures d == e && p in cache && cache[p] == d
    {}

    ghost function LiveOf(p: Path): set<nat>
      requires Valid()
      reads this
    {
      set e | e in live && home[e] == p
    }

    /** The engines of a workspace that closes have taken out and not disposed yet. */
    ghost function ClosingOf(p: Path): set<nat>
      requires Valid()
      reads this
    {
      set e | e in closing && home[e] == p
    }

    /** At every moment the live engines of a workspace are the cached one and those awaiting
        disposal; so an open one has a second live engine exactly if a close is under way on it. */
    lemma LiveEngines(p: Path)
      requires Valid()
      ensures LiveOf(p) == (if p in cache then {cache[p]} else {}) + ClosingOf(p)
      ensures p in cache ==> cache[p] !in ClosingOf(p) && (|LiveOf(p)| > 1 <==> ClosingOf(p) != {})
    {
      if p in cache {
        assert LiveOf(p) == {cache[p]} + ClosingOf(p);
        assert |LiveOf(p)| == 1 + |ClosingOf(p)|;
      }
    }

    twostate lemma SameClosing(p: Path)
      requires old(Valid()) && Valid() && closing == old(closing)
      requires forall e :: e in old(home) ==> e in home && home[e] == old(home)[e]
      ensures ClosingOf(p) == old(ClosingOf(p))
    {}

    method Attempt() returns (s: Step)
      modifies `clock, `faults
      ensures faults == old(faults) + (if s.ok then 0 else 1)
    {
      s := oracle(clock);
      clock := clock + 1;
      faults := faults + (if s.ok then 0 else 1);
    }

    /** `_ensure_wal_mode`: one retry. */
    method EnsureWal() returns (ok: bool)
      modifies `clock, `faults
      ensures if ok then faults <= old(faults) + 1 else faults == old(faults) + 2
      ensures old(faults) <= faults
    {
      var s := Attempt();
      if s.ok { return true; }
      s := Attempt();
      return s.ok;
    }

    /** The session: seed or repair the embedding row, then seed the TAO row.  Each part is
        committed on its own. */
    method Heal(path: Path) returns (ok: bool, ghost a: string, ghost b: string)
      requires path in stores
      modifies `clock, `faults, `stores
      ensures old(faults) <= faults && (!ok ==> old(faults) < faults)
      ensures path in stores && stores == old(stores)[path := stores[path]]
      ensures PassLeaves(old(stores)[path], stores[path], a, b, ok)
    {
      CurrentIsNotLegacy();
      var query := Attempt();
      a, b := query.name, query.name;
      if !query.ok { return false, a, b; }
      var rows := stores[path].embedding;
      if rows == [] || Repair(rows[0]) != rows[0] {
        var commit := Attempt();
        a := commit.name;
        if !commit.ok { return false, a, b; }
        rows := if rows == [] then [Seed(commit.name)] else rows[0 := Repair(rows[0])];
        stores := stores[path := stores[path].(embedding := rows)];
      }
      query := Attempt();
      if !query.ok { return false, a, b; }
      if stores[path].tao == [] {
        var commit := Attempt();
        b := commit.name;
        if !commit.ok { return false, a, b; }
        stores := stores[path := stores[path].(tao := [Tao(commit.name, None, "not_bootstrapped")])];
      }
      ok := true;
    }

    /** Create the missing tables, then heal the rows. */
    method CreateAndHeal(path: Path) returns (ok: bool)
      requires forall p :: p in stores ==> Singletons(stores[p])
      modifies `clock, `faults, `stores
      ensures old(faults) <= faults && (!ok ==> old(faults) < faults)
      ensures forall p :: p in stores ==> Singletons(stores[p])
      ensures ok ==> path in stores && Healed(stores[path])
      ensures Passed(old(stores), stores, path, ok)
      ensures forall p :: p in old(stores) && (p != path || Healed(old(stores)[p])) ==>
                p in stores && stores[p] == old(stores)[p]
    {
      NoPass(stores, path);
      var s := Attempt();
      if !s.ok { return false; }
      if path !in stores { stores := stores[path := EMPTY]; }
      ghost var before := stores;
      ghost var a, b;
      ok, a, b := Heal(path);
      PassSettles(before[path], stores[path], a, b, ok);
      assert PassLeaves(Stored(old(stores), path), stores[path], a, b, ok);
    }

    /** `init_deployment_db`.  The rows change by the pass only.  A new engine is cached only
        after the whole pass; if the pass fails it is disposed.  An engine that was cached
        already stays cached either way.  The workspace has a second live engine afterwards
        exactly if one of its engines was awaiting disposal before. */
    method InitDeploymentDb(path: Path) returns (engine: Option<nat>)
      requires Valid()
      modifies this
      ensures Valid() && closing == old(closing)
      ensures engine.Some? ==> path in cache && cache[path] == engine.value
      ensures engine.Some? ==> path in stores && Healed(stores[path])
      ensures Passed(old(stores), stores, path, engine.Some?)
      ensures engine.Some? ==> Refreshed(Stored(old(stores), path), stores[path])
      ensures path in old(cache) ==> cache == old(cache) && live == old(live)
      ensures path in old(cache) && engine.Some? ==> engine.value == old(cache)[path]
      ensures path !in old(cache) && engine.Some? ==>
                engine.value !in old(live) && cache == old(cache)[path := engine.value]
                && live == old(live) + {engine.value}
      ensures engine.None? ==> cache == old(cache) && live == old(live) && old(faults) < faults
      ensures forall e :: e in old(home) ==> e in home && home[e] == old(home)[e]
      ensures engine.Some? ==> engine.value in home && home[engine.value] == path
      ensures ClosingOf(path) == old(ClosingOf(path))
      ensures engine.Some? ==> (|LiveOf(path)| > 1 <==> old(ClosingOf(path)) != {})
      ensures forall p :: p in old(stores) && p != path ==> p in stores && stores[p] == old(stores)[p]
      ensures path in old(stores) && Healed(old(stores)[path]) ==>
                path in stores && stores[path] == old(stores)[path]
    {
      NoPass(stores, path);
      assert Singletons(Stored(stores, path));
      hide Healed, Singletons, Passed, LiveOf, ClosingOf, Refreshed, Stored;
      var s := Attempt();
      if !s.ok {
        engine := None;
      } else if path !in cache {
        engine := OpenNew(path);
      } else {
        var ok := CreateAndHeal(path);
        engine := if ok then Some(cache[path]) else None;
      }
      if engine.Some? { PassedRefreshes(old(stores), stores, path); }
      SameClosing(path);
      LiveEngines(path);
    }

    /** First open of a workspace: a new engine, cached or disposed. */
    method OpenNew(path: Path) returns (engine: Option<nat>)
      requires Valid() && path !in cache
      modifies this
      ensures Valid() && closing == old(closing)
      ensures engine.Some? ==> path in stores && Healed(stores[path])
      ensures Passed(old(stores), stores, path, engine.Some?)
      ensures engine.Some? ==> engine.value !in old(live) && cache == old(cache)[path := engine.value]
                               && live == old(live) + {engine.value}
      ensures engine.None? ==> cache == old(cache) && live == old(live) && old(faults) < faults
      ensures forall e :: e in old(home) ==> e in home && home[e] == old(home)[e]
      ensures engine.Some? ==> engine.value in home && home[engine.value] == path
      ensures forall p :: p in old(stores) && (p != path || Healed(old(stores)[p])) ==>
                p in stores && stores[p] == old(stores)[p]
    {
      TrackedWithNew(cache, live, home, closing, nextEngine, path);
      NoPass(stores, path);
      hide Healed, Singletons, Tracked, Passed, Stored;
      var e := nextEngine;
      nextEngine := nextEngine + 1;
      live, home := live + {e}, home[e := path];
      var ok := EnsureWal();
      if ok {
        ok := CreateAndHeal(path);
      }
      if !ok {
        live := live - {e};
        return None;
      }
      cache := cache[path := e];
      return Some(e);
    }

    /** The half of a close that holds the lock. */
    method Detach() returns (engines: set<nat>)
      requires Valid()
      modifies `cache, `closing
      ensures Valid() && cache == map[]
      ensures engines == old(cache).Values && closing == old(closing) + engines
    {
      engines := cache.Values;
      closing := closing + engines;
      cache := map[];
    }

    /** The half that does not: dispose the engines taken out, one after another. */
    method Dispose(engines: set<nat>)
      requires Valid() && engines <= closing
      modifies `live, `closing
      ensures Valid() && live == old(live) - engines && closing == old(closing) - engines
    {
      var rest := engines;
      while rest != {}
        invariant rest <= engines && rest <= closing
        invariant Valid()
        invariant live == old(live) - (engines - rest) && closing == old(closing) - (engines - rest)
        decreases rest
      {
        var e :| e in rest;
        live, closing, rest := live - {e}, closing - {e}, rest - {e};
      }
    }

    /** `close_deployment_db_resources`. */
    method CloseDeploymentDbResources()
      requires Valid()
      modifies `cache, `live, `closing
      ensures Valid() && cache == map[] && closing == old(closing)
      ensures live == old(live) - old(cache).Values
    {
      var engines := Detach();
      Dispose(engines);
    }

    /** Any sequence of opens and closes, each open failing wherever it likes and each close
        overtaken by any number of opens between its disposals: the live engines are exactly
        the cached ones and those awaiting disposal, and no row is doubled.  Without a close
        under way, nothing but the cached engines is live. */
    method Run(operations: seq<Operation>)
      requires Valid()
      modifies this
      ensures Valid() && live == cache.Values + closing && cache.Values !! closing
      ensures old(closing) == {} && BeginClose !in operations ==> closing == {}
      ensures forall p :: p in stores ==> Singletons(stores[p])
      ensures forall p :: p in old(stores) && Healed(old(stores)[p]) ==> p in stores && stores[p] == old(stores)[p]
    {
      hide Healed, Singletons, Passed, Tracked;
      for i := 0 to |operations|
        invariant Valid()
        invariant old(closing) == {} && BeginClose !in operations ==> closing == {}
        invariant forall p :: p in old(stores) && Healed(old(stores)[p]) ==>
                    p in stores && stores[p] == old(stores)[p]
      {
        match operations[i] {
          case Open(path) => var engine := InitDeploymentDb(path);
          case Close => CloseDeploymentDbResources();
          case BeginClose => var engines := Detach();
          case DisposeOne(e) => if e in closing { Dispose({e}); }
        }
      }
      LiveAre();
    }

    lemma LiveAre()
      requires Valid()
      ensures live == cache.Values + closing && cache.Values !! closing
    {
      forall e | e in live && e !in closing ensures e in cache.Values {
        assert cache[home[e]] == e;
      }
    }

    /** Because disposal happens outside the lock, an open between the two halves of a close
        leaves two live engines for one workspace until the close goes on; it succeeds unless
        something fails. */
    method OpenWhileClosing(path: Path) returns (first: nat, second: Option<nat>)
      requires Valid() && path in cache
      modifies this
      ensures Valid() && (faults == old(faults) ==> second.Some?)
      ensures second.Some? ==> first != second.value && {first, second.value} <= LiveOf(path)
    {
      first := cache[path];
      var engines := Detach();
      second := InitDeploymentDb(path);
    }
  }
}
