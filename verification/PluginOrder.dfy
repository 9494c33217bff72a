/** Initialization order of plugin modules: the three-colour depth-first search
    of plugin.go and of its twin plugin-sdk/dependency.go. */
module PluginOrder {
  import opened Wrappers

  /** A module that does not implement Dependent has no dependencies. */
  datatype Module = Module(id: string, deps: seq<string>)

  datatype Mark = Visiting | Done

  datatype Error =
    | NilModule
    | Duplicate(id: string)
    | Missing(id: string, dep: string)
    | Cycle(path: seq<string>)

  type Index = map<string, Module>

  // ---------------------------------------------------------------- reference definitions

  /** The index the search consults: one entry per configured module, under its ID. */
  ghost predicate Indexes(byID: Index, modules: seq<Module>) {
    && (forall i, j :: 0 <= i < j < |modules| ==> modules[i].id != modules[j].id)
    && (forall m :: m in modules ==> m.id in byID && byID[m.id] == m)
    && (forall id :: id in byID ==> byID[id] in modules && byID[id].id == id)
  }

  ghost predicate AllConfigured(byID: Index) {
    forall id, d :: id in byID && d in byID[id].deps ==> d in byID
  }

  /** A walk along dependency edges, from dependent to dependency. */
  ghost predicate Walk(byID: Index, p: seq<string>) {
    && |p| > 0
    && (forall i :: 0 <= i < |p| ==> p[i] in byID)
    && (forall i, j :: 0 <= i < j < |p| && j == i + 1 ==> p[j] in byID[p[i]].deps)
  }

  ghost predicate Cyclic(byID: Index) {
    exists p :: Walk(byID, p) && |p| > 1 && p[0] == p[|p| - 1]
  }

  ghost predicate Reaches(byID: Index, from: string, to: string) {
    exists p :: Walk(byID, p) && p[0] == from && p[|p| - 1] == to
  }

  ghost predicate Before(order: seq<Module>, d: string, i: nat)
    requires i <= |order|
  {
    exists j :: 0 <= j < i && order[j].id == d
  }

  ghost predicate Placed(order: seq<Module>, id: string) {
    Before(order, id, |order|)
  }

  /** Every module follows all the modules it depends on. */
  ghost predicate DependencyFirst(order: seq<Module>) {
    forall i, d :: 0 <= i < |order| && d in order[i].deps ==> Before(order, d, i)
  }

  ghost predicate DistinctIDs(order: seq<Module>) {
    forall i, j :: 0 <= i < j < |order| ==> order[i].id != order[j].id
  }

  ghost predicate Topological(order: seq<Module>, modules: seq<Module>) {
    && DistinctIDs(order)
    && (forall m :: m in order <==> m in modules)
    && DependencyFirst(order)
  }

  /** The configured order is kept otherwise. Module `order[i]` was placed because
      `modules[need[i]]` is that module or needs it; these reasons follow the configured
      order, and no module waits longer than for its own turn. */
  ghost predicate Grouped(byID: Index, modules: seq<Module>, order: seq<Module>, need: seq<nat>) {
    && |need| == |order|
    && (forall i, j :: 0 <= i < j < |need| ==> need[i] <= need[j])
    && (forall i :: 0 <= i < |need| ==> need[i] < |modules|)
    && (forall i {:trigger Reaches(byID, modules[need[i]].id, order[i].id)} ::
          0 <= i < |need| ==> Reaches(byID, modules[need[i]].id, order[i].id))
    && (forall i, k :: 0 <= i < |need| && 0 <= k < |modules| && order[i] == modules[k] ==> need[i] <= k)
  }

  // ---------------------------------------------------------------- facts about the definitions

  lemma {:induction false} WalkDescends(byID: Index, order: seq<Module>, p: seq<string>, i: nat, k: nat)
    returns (j: nat)
    requires DistinctIDs(order) && DependencyFirst(order)
    requires forall id :: id in byID ==> byID[id].id == id && byID[id] in order
    requires Walk(byID, p) && k < |p|
    requires i < |order| && order[i].id == p[0]
    ensures j < |order| && order[j].id == p[k] && j <= i && (k > 0 ==> j < i)
    decreases k
  {
    if k == 0 {
      j := i;
    } else {
      var b := WalkDescends(byID, order, p, i, k - 1);
      assert byID[p[k - 1]] in order;
      assert order[b] == byID[p[k - 1]] by {
        var c :| 0 <= c < |order| && order[c] == byID[p[k - 1]];
        assert order[c].id == order[b].id;
      }
      assert p[k] in order[b].deps;
      assert Before(order, p[k], b);
      j :| 0 <= j < b && order[j].id == p[k];
    }
  }

  /** A topological order rules out both reasons for rejecting a configuration. */
  lemma TopologicalImpliesAccepted(byID: Index, modules: seq<Module>, order: seq<Module>)
    requires Indexes(byID, modules) && Topological(order, modules)
    ensures AllConfigured(byID) && !Cyclic(byID)
  {
    forall id, d | id in byID && d in byID[id].deps ensures d in byID {
      var i :| 0 <= i < |order| && order[i] == byID[id];
      assert Before(order, d, i);
      var j :| 0 <= j < i && order[j].id == d;
      assert order[j] in modules;
    }
    if Cyclic(byID) {
      var p :| Walk(byID, p) && |p| > 1 && p[0] == p[|p| - 1];
      var i :| 0 <= i < |order| && order[i] == byID[p[0]];
      var j := WalkDescends(byID, order, p, i, |p| - 1);
      assert false;
    }
  }

  /** A walk that returns to a node it has already visited closes a cycle. */
  lemma RepeatedNodeIsCycle(byID: Index, p: seq<string>, i: nat)
    requires Walk(byID, p) && i < |p| - 1 && p[i] == p[|p| - 1]
    ensures Cyclic(byID)
  {
    var c := p[i..];
    assert Walk(byID, c) && |c| > 1 && c[0] == c[|c| - 1];
  }

  lemma ReachesItself(byID: Index, id: string)
    requires id in byID
    ensures Reaches(byID, id, id)
  {
    var p := [id];
    assert Walk(byID, p) && p[0] == id && p[|p| - 1] == id;
  }

  lemma ReachesThroughDependency(byID: Index, from: string, dep: string, to: string)
    requires from in byID && dep in byID[from].deps && Reaches(byID, dep, to)
    ensures Reaches(byID, from, to)
  {
    var p :| Walk(byID, p) && p[0] == dep && p[|p| - 1] == to;
    var q := [from] + p;
    forall i, j | 0 <= i < j < |q| && j == i + 1 ensures q[j] in byID[q[i]].deps {
      if i > 0 { assert q[i] == p[i - 1] && q[j] == p[j - 1]; }
    }
    assert Walk(byID, q) && q[0] == from && q[|q| - 1] == to;
  }

  // ---------------------------------------------------------------- invariant of the search

  ghost predicate IsDone(state: map<string, Mark>, id: string) {
    id in state && state[id] == Done
  }

  ghost predicate IsVisiting(state: map<string, Mark>, id: string) {
    id in state && state[id] == Visiting
  }

  ghost predicate WellIndexed(byID: Index) {
    forall id :: id in byID ==> byID[id].id == id
  }

  /** The modules placed so far are exactly those marked done, in dependency order. */
  ghost predicate Sound(byID: Index, state: map<string, Mark>, order: seq<Module>) {
    && state.Keys <= byID.Keys
    && DistinctIDs(order) && DependencyFirst(order)
    && (forall i :: 0 <= i < |order| ==> order[i].id in byID && byID[order[i].id] == order[i])
    && (forall id :: IsDone(state, id) <==> Placed(order, id))
  }

  /** The modules marked visiting are those of the current path, which is a walk. */
  ghost predicate OnPath(byID: Index, state: map<string, Mark>, path: seq<string>) {
    && (forall id :: IsVisiting(state, id) <==> id in path)
    && (path != [] ==> Walk(byID, path))
  }

  lemma MarkVisiting(byID: Index, state: map<string, Mark>, order: seq<Module>, path: seq<string>, id: string)
    requires Sound(byID, state, order) && OnPath(byID, state, path)
    requires id in byID && id !in state
    requires path != [] ==> id in byID[path[|path| - 1]].deps
    ensures Sound(byID, state[id := Visiting], order)
    ensures OnPath(byID, state[id := Visiting], path + [id])
  {
    var now, p := state[id := Visiting], path + [id];
    forall x ensures IsVisiting(now, x) <==> x in p {
      assert IsVisiting(state, x) <==> x in path;
    }
    forall x ensures IsDone(now, x) <==> Placed(order, x) {
      assert IsDone(state, x) <==> Placed(order, x);
      assert !IsDone(state, id);
    }
  }

  lemma PlacedAfterAppend(order: seq<Module>, m: Module, id: string)
    ensures Placed(order + [m], id) <==> Placed(order, id) || id == m.id
  {
    var now := order + [m];
    if Placed(order, id) {
      var j :| 0 <= j < |order| && order[j].id == id;
      assert now[j].id == id;
    }
    if id == m.id { assert now[|order|].id == id; }
  }

  lemma AppendDependencyFirst(order: seq<Module>, m: Module)
    requires DependencyFirst(order) && forall d :: d in m.deps ==> Placed(order, d)
    ensures DependencyFirst(order + [m])
  {
    var now := order + [m];
    forall i, d | 0 <= i < |now| && d in now[i].deps ensures Before(now, d, i) {
      assert Before(order, d, i);
      var j :| 0 <= j < i && order[j].id == d;
      assert now[j].id == d;
    }
  }

  lemma MarkDone(byID: Index, state: map<string, Mark>, order: seq<Module>, path: seq<string>, m: Module)
    requires Sound(byID, state, order) && OnPath(byID, state, path + [m.id])
    requires m.id in byID && byID[m.id] == m && m.id !in path
    requires forall d :: d in m.deps ==> IsDone(state, d)
    ensures Sound(byID, state[m.id := Done], order + [m])
    ensures OnPath(byID, state[m.id := Done], path)
  {
    var was, now := state, state[m.id := Done];
    assert m.id in path + [m.id];
    assert IsVisiting(state, m.id);
    assert !Placed(order, m.id);
    forall i | 0 <= i < |order| ensures order[i].id != m.id {
      assert Placed(order, order[i].id);
    }
    AppendDependencyFirst(order, m);
    forall id ensures IsDone(now, id) <==> Placed(order + [m], id) {
      PlacedAfterAppend(order, m, id);
      assert IsDone(was, id) <==> Placed(order, id);
    }
    forall id ensures IsVisiting(now, id) <==> id in path {
      assert IsVisiting(was, id) <==> id in path + [m.id];
    }
    if path != [] {
      assert forall i :: 0 <= i < |path| ==> path[i] == (path + [m.id])[i];
    }
  }

  lemma PlacedMonotone(was: seq<Module>, now: seq<Module>, id: string)
    requires was <= now && Placed(was, id)
    ensures Placed(now, id)
  {
    var j :| 0 <= j < |was| && was[j].id == id;
    assert now[j].id == id;
  }

  ghost predicate AllPlacedIn(order: seq<Module>, ids: seq<string>) {
    forall id :: id in ids ==> Placed(order, id)
  }

  lemma AllStillPlaced(was: seq<Module>, now: seq<Module>, ids: seq<string>)
    requires was <= now && AllPlacedIn(was, ids)
    ensures AllPlacedIn(now, ids)
  {
    forall id | id in ids ensures Placed(now, id) {
      PlacedMonotone(was, now, id);
    }
  }

  /** The report of a module found on its own path is a walk whose last node repeats. */
  lemma CycleReport(byID: Index, path: seq<string>, id: string)
    requires path != [] && Walk(byID, path) && id in path && id in byID[path[|path| - 1]].deps && id in byID
    ensures ClosesCycle(byID, path + [id])
  {
    var i :| 0 <= i < |path| && path[i] == id;
    var p := path + [id];
    assert p[i] == p[|p| - 1];
  }

  ghost predicate ClosesCycle(byID: Index, p: seq<string>) {
    Walk(byID, p) && exists i :: 0 <= i < |p| - 1 && p[i] == p[|p| - 1]
  }

  /** What an error of the search is evidence of. */
  ghost predicate Justified(byID: Index, e: Error) {
    match e
    case Missing(id, dep) => id in byID && dep in byID[id].deps && dep !in byID
    case Cycle(path) => ClosesCycle(byID, path)
    case _ => false
  }

  /** Both errors of the search are genuine obstacles. */
  lemma JustifiedMeansRejected(byID: Index, modules: seq<Module>, e: Error)
    requires Indexes(byID, modules) && Justified(byID, e)
    ensures !(AllConfigured(byID) && !Cyclic(byID))
    ensures !exists order :: Topological(order, modules)
    ensures !DependencyFirst(modules)
  {
    if e.Cycle? {
      var i :| 0 <= i < |e.path| - 1 && e.path[i] == e.path[|e.path| - 1];
      RepeatedNodeIsCycle(byID, e.path, i);
    }
    if order :| Topological(order, modules) {
      TopologicalImpliesAccepted(byID, modules, order);
    }
    if DependencyFirst(modules) {
      assert Topological(modules, modules);
    }
  }

  /** The modules from position `from` on were placed on behalf of module `id`. */
  ghost predicate PlacedOnBehalf(byID: Index, order: seq<Module>, from: nat, id: string) {
    forall i {:trigger Reaches(byID, id, order[i].id)} :: from <= i < |order| ==> Reaches(byID, id, order[i].id)
  }

  lemma OnBehalfAppend(byID: Index, order: seq<Module>, from: nat, m: Module)
    requires m.id in byID && PlacedOnBehalf(byID, order, from, m.id)
    ensures PlacedOnBehalf(byID, order + [m], from, m.id)
  {
    var now := order + [m];
    forall i | from <= i < |now| ensures Reaches(byID, m.id, now[i].id) {
      if i < |order| {
        assert Reaches(byID, m.id, order[i].id);
      } else {
        ReachesItself(byID, m.id);
      }
    }
  }

  lemma OnBehalfThrough(byID: Index, was: seq<Module>, mid: seq<Module>, now: seq<Module>, id: string, dep: string)
    requires id in byID && dep in byID[id].deps && was <= mid <= now
    requires PlacedOnBehalf(byID, mid, |was|, id) && PlacedOnBehalf(byID, now, |mid|, dep)
    ensures PlacedOnBehalf(byID, now, |was|, id)
  {
    forall i | |was| <= i < |now| ensures Reaches(byID, id, now[i].id) {
      if i < |mid| {
        assert now[i] == mid[i];
      } else {
        ReachesThroughDependency(byID, id, dep, now[i].id);
      }
    }
  }

  // ---------------------------------------------------------------- the search

  class Search {
    const byID: Index
    var state: map<string, Mark>
    var order: seq<Module>

    constructor (byID: Index)
      ensures this.byID == byID && state == map[] && order == []
    {
      this.byID := byID;
      state := map[];
      order := [];
    }

    ghost predicate Valid(path: seq<string>)
      reads this
    {
      WellIndexed(byID) && Sound(byID, state, order) && OnPath(byID, state, path)
    }

    method Visit(m: Module, path: seq<string>) returns (err: Option<Error>)
      requires Valid(path) && m.id in byID && byID[m.id] == m
      requires path != [] ==> m.id in byID[path[|path| - 1]].deps
      modifies this`state, this`order
      ensures err.Some? ==> Justified(byID, err.value)
      ensures err.None? ==> Valid(path) && IsDone(state, m.id)
      ensures err.None? ==> old(order) <= order && PlacedOnBehalf(byID, order, |old(order)|, m.id)
      ensures err.None? ==> old(state.Keys) <= state.Keys
      ensures err.None? && IsDone(old(state), m.id) ==> order == old(order) && state == old(state)
      ensures err.None? && !IsDone(old(state), m.id) && (forall d :: d in m.deps ==> IsDone(old(state), d)) ==>
        order == old(order) + [m]
      decreases byID.Keys - state.Keys
    {
      if m.id in state {
        match state[m.id]
        case Done => return None;
        case Visiting =>
          assert IsVisiting(state, m.id);
          CycleReport(byID, path, m.id);
          return Some(Cycle(path + [m.id]));
      }
      assert !IsVisiting(state, m.id);
      MarkVisiting(byID, state, order, path, m.id);
      state := state[m.id := Visiting];
      ghost var ready := forall d :: d in m.deps ==> IsDone(old(state), d);
      ghost var start := order;
      ghost var marked := state;
      var n := 0;
      while n < |m.deps|
        invariant 0 <= n <= |m.deps|
        invariant Valid(path + [m.id])
        invariant old(state.Keys) < state.Keys
        invariant start <= order && PlacedOnBehalf(byID, order, |start|, m.id)
        invariant AllPlacedIn(order, m.deps[..n])
        invariant ready ==> order == start && state == marked
      {
        var dep := m.deps[n];
        if dep !in byID {
          return Some(Missing(m.id, dep));
        }
        ghost var mid := order;
        var e := Visit(byID[dep], path + [m.id]);
        if e.Some? {
          return e;
        }
        OnBehalfThrough(byID, start, mid, order, m.id, dep);
        AllStillPlaced(mid, order, m.deps[..n]);
        assert m.deps[..n + 1] == m.deps[..n] + [dep];
        n := n + 1;
      }
      assert m.deps[..n] == m.deps;
      MarkDone(byID, state, order, path, m);
      OnBehalfAppend(byID, order, |start|, m);
      state := state[m.id := Done];
      order := order + [m];
      return None;
    }
  }

  /** A run of the search over all modules places exactly them. */
  lemma AllPlaced(byID: Index, modules: seq<Module>, state: map<string, Mark>, order: seq<Module>)
    requires Indexes(byID, modules) && Sound(byID, state, order)
    requires forall k :: 0 <= k < |modules| ==> Placed(order, modules[k].id)
    ensures Topological(order, modules)
  {
    forall m ensures m in order <==> m in modules {
      if m in modules {
        var k :| 0 <= k < |modules| && modules[k] == m;
        assert Placed(order, modules[k].id);
        var j :| 0 <= j < |order| && order[j].id == m.id;
        assert order[j] == byID[m.id] == m;
      }
      if m in order {
        var j :| 0 <= j < |order| && order[j] == m;
        assert byID[m.id] == m;
      }
    }
  }

  /** A module whose predecessors in the configured order are placed is ready. */
  lemma ReadyInConfiguredOrder(modules: seq<Module>, k: nat, state: map<string, Mark>)
    requires DependencyFirst(modules) && k < |modules| && DistinctIDs(modules)
    requires forall id :: IsDone(state, id) <==> Placed(modules[..k], id)
    ensures !IsDone(state, modules[k].id)
    ensures forall d :: d in modules[k].deps ==> IsDone(state, d)
  {
    forall d | d in modules[k].deps ensures IsDone(state, d) {
      assert Before(modules, d, k);
      var j :| 0 <= j < k && modules[j].id == d;
      assert modules[..k][j].id == d;
    }
  }

  lemma GroupedAdvances(byID: Index, modules: seq<Module>, was: seq<Module>, now: seq<Module>, need: seq<nat>, k: nat)
    returns (longer: seq<nat>)
    requires k < |modules| && DistinctIDs(modules) && DistinctIDs(now) && was <= now
    requires Grouped(byID, modules, was, need)
    requires forall i :: 0 <= i < |need| ==> need[i] < k
    requires forall j :: 0 <= j < k ==> Placed(was, modules[j].id)
    requires PlacedOnBehalf(byID, now, |was|, modules[k].id)
    ensures Grouped(byID, modules, now, longer)
    ensures forall i :: 0 <= i < |longer| ==> longer[i] < k + 1
  {
    longer := need + seq(|now| - |was|, _ => k);
    forall i | 0 <= i < |now| ensures Reaches(byID, modules[longer[i]].id, now[i].id) {
      if i < |was| { assert now[i] == was[i]; }
    }
    forall i, j | 0 <= i < |now| && 0 <= j < |modules| && now[i] == modules[j] ensures longer[i] <= j {
      if i < |was| {
        assert now[i] == was[i];
      } else if j < k {
        NotPlacedTwice(was, now, modules[j].id, i);
      }
    }
  }

  lemma NotPlacedTwice(was: seq<Module>, now: seq<Module>, id: string, i: nat)
    requires DistinctIDs(now) && was <= now && |was| <= i < |now| && Placed(was, id)
    ensures now[i].id != id
  {
    var p :| 0 <= p < |was| && was[p].id == id;
    assert now[p].id == id;
  }

  lemma StillPlaced(was: seq<Module>, now: seq<Module>, modules: seq<Module>, k: nat)
    requires was <= now && k <= |modules| && forall j :: 0 <= j < k ==> Placed(was, modules[j].id)
    ensures forall j :: 0 <= j < k ==> Placed(now, modules[j].id)
  {
    forall j | 0 <= j < k ensures Placed(now, modules[j].id) {
      PlacedMonotone(was, now, modules[j].id);
    }
  }

  /** The loop over the configured modules, with the facts it keeps. */
  method VisitAll(modules: seq<Module>, s: Search) returns (err: Option<Error>, ghost need: seq<nat>)
    requires s.state == map[] && s.order == [] && WellIndexed(s.byID) && DistinctIDs(modules)
    requires forall k :: 0 <= k < |modules| ==> modules[k].id in s.byID && s.byID[modules[k].id] == modules[k]
    modifies s
    ensures err.Some? ==> Justified(s.byID, err.value)
    ensures err.None? ==> Sound(s.byID, s.state, s.order) && Grouped(s.byID, modules, s.order, need)
    ensures err.None? ==> forall k :: 0 <= k < |modules| ==> Placed(s.order, modules[k].id)
    ensures err.None? && DependencyFirst(modules) ==> s.order == modules
  {
    need := [];
    var k := 0;
    while k < |modules|
      invariant 0 <= k <= |modules| && s.Valid([])
      invariant forall j :: 0 <= j < k ==> Placed(s.order, modules[j].id)
      invariant Grouped(s.byID, modules, s.order, need) && forall i :: 0 <= i < |need| ==> need[i] < k
      invariant DependencyFirst(modules) ==> s.order == modules[..k]
    {
      ghost var was := s.order;
      if DependencyFirst(modules) {
        ReadyInConfiguredOrder(modules, k, s.state);
      }
      var e := s.Visit(modules[k], []);
      if e.Some? {
        return e, need;
      }
      need := GroupedAdvances(s.byID, modules, was, s.order, need, k);
      StillPlaced(was, s.order, modules, k);
      k := k + 1;
    }
    assert modules[..|modules|] == modules;
    err := None;
  }

  /** Sorts modules so that dependencies come first. The result is accepted exactly when a
      topological order exists, which is exactly when every dependency is configured and no
      dependency walk closes on itself. */
  method InitOrder(modules: seq<Module>, byID: Index) returns (r: Result<seq<Module>, Error>, ghost need: seq<nat>)
    requires Indexes(byID, modules)
    ensures r.Ok? <==> AllConfigured(byID) && !Cyclic(byID)
    ensures r.Ok? <==> exists order :: Topological(order, modules)
    ensures r.Ok? ==> Topological(r.value, modules) && Grouped(byID, modules, r.value, need)
    ensures DependencyFirst(modules) ==> r == Ok(modules)
    ensures r.Err? ==> Justified(byID, r.error)
  {
    var s := new Search(byID);
    var err;
    err, need := VisitAll(modules, s);
    if err.Some? {
      JustifiedMeansRejected(byID, modules, err.value);
      return Err(err.value), need;
    }
    AllPlaced(byID, modules, s.state, s.order);
    TopologicalImpliesAccepted(byID, modules, s.order);
    r := Ok(s.order);
  }

  /** The module values of a configuration list without nil entries. */
  ghost predicate Unwraps(modules: seq<Option<Module>>, plain: seq<Module>) {
    |plain| == |modules| && forall i :: 0 <= i < |plain| ==> modules[i] == Some(plain[i])
  }

  /** Collects the modules under their IDs, rejecting nil and repeated ones. */
  method BuildIndex(modules: seq<Option<Module>>) returns (err: Option<Error>, byID: Index, plain: seq<Module>)
    ensures err.None? ==> Unwraps(modules, plain) && Indexes(byID, plain)
    ensures err.None? <==> exists p :: Unwraps(modules, p) && DistinctIDs(p)
    ensures err.Some? ==> Rejection(modules, err.value)
  {
    byID, plain := map[], [];
    for k := 0 to |modules|
      invariant |plain| == k
      invariant forall i :: 0 <= i < k ==> modules[i] == Some(plain[i])
      invariant Indexes(byID, plain)
    {
      if modules[k].None? {
        return Some(NilModule), byID, plain;
      }
      var m := modules[k].value;
      if m.id in byID {
        var i :| 0 <= i < |plain| && plain[i] == byID[m.id];
        assert modules[i].value.id == modules[k].value.id;
        return Some(Duplicate(m.id)), byID, plain;
      }
      byID, plain := byID[m.id := m], plain + [m];
    }
    assert Unwraps(modules, plain) && DistinctIDs(plain);
    err := None;
  }

  ghost predicate Rejection(modules: seq<Option<Module>>, e: Error) {
    match e
    case NilModule => None in modules
    case Duplicate(id) =>
      exists i, j :: 0 <= i < j < |modules| && modules[i].Some? && modules[j].Some?
        && modules[i].value.id == id && modules[j].value.id == id
    case _ => false
  }

  /** The SDK variant builds the index itself, then sorts as above. */
  method ResolveInitOrder(modules: seq<Option<Module>>)
    returns (r: Result<seq<Module>, Error>, ghost plain: seq<Module>)
    ensures (forall p :: !(Unwraps(modules, p) && DistinctIDs(p))) ==> r.Err? && Rejection(modules, r.error)
    ensures (exists p :: Unwraps(modules, p) && DistinctIDs(p)) ==>
      Unwraps(modules, plain) && DistinctIDs(plain)
      && (r.Ok? <==> exists order :: Topological(order, plain)) && (r.Ok? ==> Topological(r.value, plain))
  {
    var err, byID, configured := BuildIndex(modules);
    plain := configured;
    if err.Some? {
      return Err(err.value), plain;
    }
    ghost var need;
    r, need := InitOrder(configured, byID);
  }
}
