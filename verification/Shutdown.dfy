/** Registration of lifecycles while plugins initialize (plugin.go) and the single, reverse
    order shutdown of auth.go. */
module Shutdown {
  import opened Wrappers
  import PluginOrder

  /** A dynamic type, and whether its values can be compared. */
  datatype Type = Type(name: string, comparable: bool)

  /** A registered lifecycle: a pointer, a non-pointer value of some dynamic type, or the
      wrapper the engine allocates around a plain closer. */
  datatype Lifecycle =
    | Pointer(address: nat)
    | Plain(typ: Type, content: int)
    | Wrapper(serial: nat, closer: nat)

  /** What a module, or a capability it provides, offers for shutdown. */
  datatype Offer = AsLifecycle(l: Lifecycle) | AsCloser(closer: nat) | Neither

  datatype Plugin = Plugin(mod: PluginOrder.Module, self: Offer, capabilities: seq<Offer>, initFails: bool) {
    /** In the order registered: the module itself, then what its Init provides. */
    function Offers(): seq<Offer> {
      [self] + capabilities
    }
  }

  /** The duplicate test: identity for pointers, equality for comparable values of one type. */
  predicate Same(a: Lifecycle, b: Lifecycle) {
    match (a, b)
    case (Pointer(x), Pointer(y)) => x == y
    case (Wrapper(x, _), Wrapper(y, _)) => x == y
    case (Plain(s, x), Plain(t, y)) => s == t && s.comparable && x == y
    case _ => false
  }

  predicate Known(ls: seq<Lifecycle>, l: Lifecycle) {
    exists i :: 0 <= i < |ls| && Same(ls[i], l)
  }

  datatype Registry = Registry(lifecycles: seq<Lifecycle>, wrappers: nat)

  const EMPTY := Registry([], 0)

  function Add(ls: seq<Lifecycle>, l: Lifecycle): seq<Lifecycle> {
    if Known(ls, l) then ls else ls + [l]
  }

  function Register(r: Registry, o: Offer): Registry {
    match o
    case AsLifecycle(l) => r.(lifecycles := Add(r.lifecycles, l))
    case AsCloser(c) => Registry(Add(r.lifecycles, Wrapper(r.wrappers, c)), r.wrappers + 1)
    case Neither => r
  }

  function RegisterAll(r: Registry, os: seq<Offer>): Registry
    decreases |os|
  {
    if os == [] then r else RegisterAll(Register(r, os[0]), os[1..])
  }

  // ---------------------------------------------------------------- what registration keeps

  ghost predicate NoTwoSame(ls: seq<Lifecycle>) {
    forall i, j :: 0 <= i < j < |ls| ==> !Same(ls[i], ls[j])
  }

  /** Serial numbers of wrappers stay below the allocation counter. */
  ghost predicate Fresh(r: Registry) {
    forall i :: 0 <= i < |r.lifecycles| && r.lifecycles[i].Wrapper? ==> r.lifecycles[i].serial < r.wrappers
  }

  ghost predicate Foreign(os: seq<Offer>) {
    forall i :: 0 <= i < |os| && os[i].AsLifecycle? ==> !os[i].l.Wrapper?
  }

  /** What stands for an offer: a lifecycle that is the same, or a wrapper of the closer. */
  predicate Represents(entry: Lifecycle, o: Offer) {
    match o
    case AsLifecycle(l) => Same(entry, l) || entry == l
    case AsCloser(c) => entry.Wrapper? && entry.closer == c
    case Neither => false
  }

  ghost predicate Stands(ls: seq<Lifecycle>, o: Offer) {
    o == Neither || exists i :: 0 <= i < |ls| && Represents(ls[i], o)
  }

  function Closers(ls: seq<Lifecycle>, c: nat): nat {
    if ls == [] then 0
    else (if ls[|ls| - 1].Wrapper? && ls[|ls| - 1].closer == c then 1 else 0) + Closers(ls[..|ls| - 1], c)
  }

  function Offered(os: seq<Offer>, c: nat): nat {
    if os == [] then 0 else (if os[0] == AsCloser(c) then 1 else 0) + Offered(os[1..], c)
  }

  lemma RegisterStands(r: Registry, o: Offer)
    requires Fresh(r)
    ensures Stands(Register(r, o).lifecycles, o)
  {
    var n := Register(r, o);
    if n.lifecycles != r.lifecycles {
      assert Represents(n.lifecycles[|r.lifecycles|], o);
    } else if o.AsLifecycle? {
      var i :| 0 <= i < |r.lifecycles| && Same(r.lifecycles[i], o.l);
      assert Represents(n.lifecycles[i], o);
    }
  }

  lemma RegisterKeeps(r: Registry, o: Offer, c: nat)
    requires NoTwoSame(r.lifecycles) && Fresh(r) && Foreign([o])
    ensures var n := Register(r, o);
      && r.lifecycles <= n.lifecycles && NoTwoSame(n.lifecycles) && Fresh(n)
      && Closers(n.lifecycles, c) == Closers(r.lifecycles, c) + (if o == AsCloser(c) then 1 else 0)
  {
    assert [o][0] == o;
    var n := Register(r, o);
    if n.lifecycles != r.lifecycles {
      assert n.lifecycles[..|n.lifecycles| - 1] == r.lifecycles;
    }
  }

  /** A closer is closed once per registration: the wrapper hides its identity, so offering
      the same closer twice registers it twice. */
  lemma {:induction false} ClosersAreNotDeduplicated(r: Registry, os: seq<Offer>, c: nat)
    requires NoTwoSame(r.lifecycles) && Fresh(r) && Foreign(os)
    ensures NoTwoSame(RegisterAll(r, os).lifecycles) && Fresh(RegisterAll(r, os))
    ensures r.lifecycles <= RegisterAll(r, os).lifecycles
    ensures Closers(RegisterAll(r, os).lifecycles, c) == Closers(r.lifecycles, c) + Offered(os, c)
    decreases |os|
  {
    if os != [] {
      assert Foreign([os[0]]) && Foreign(os[1..]);
      RegisterKeeps(r, os[0], c);
      ClosersAreNotDeduplicated(Register(r, os[0]), os[1..], c);
    }
  }

  /** A module that is a closer and also provides itself as a capability is closed twice,
      while a module that is a lifecycle in the same position is stopped once. */
  lemma ProvidingOneselfTwice(c: nat, l: Lifecycle)
    requires l.Pointer?
    ensures Closers(RegisterAll(EMPTY, [AsCloser(c), AsCloser(c)]).lifecycles, c) == 2
    ensures RegisterAll(EMPTY, [AsLifecycle(l), AsLifecycle(l)]).lifecycles == [l]
  {
    var two := [AsCloser(c), AsCloser(c)];
    assert two[1..] == [AsCloser(c)];
    assert Offered([AsCloser(c)], c) == 1;
    ClosersAreNotDeduplicated(EMPTY, two, c);
    var same := [AsLifecycle(l), AsLifecycle(l)];
    assert same[1..] == [AsLifecycle(l)];
    var once := Register(EMPTY, AsLifecycle(l));
    assert once.lifecycles == [l] && Same(once.lifecycles[0], l);
    assert RegisterAll(once, [AsLifecycle(l)]) == RegisterAll(Register(once, AsLifecycle(l)), []);
  }

  // ---------------------------------------------------------------- what is registered, by the offers

  /** Everything offered, each module before what its Init provides. */
  function AllOffers(plugins: seq<Plugin>): seq<Offer> {
    if plugins == [] then []
    else ([plugins[0].self] + plugins[0].capabilities) + AllOffers(plugins[1..])
  }

  /** How often each lifecycle and closer is in the list: a pointer or comparable value once if
      it was offered at all, everything else once per offer. */
  ghost predicate Tallied(offers: multiset<Offer>, ls: seq<Lifecycle>) {
    && (forall a :: multiset(ls)[Pointer(a)] == if AsLifecycle(Pointer(a)) in offers then 1 else 0)
    && (forall t, x :: multiset(ls)[Plain(t, x)] ==
          if !t.comparable then offers[AsLifecycle(Plain(t, x))]
          else if AsLifecycle(Plain(t, x)) in offers then 1 else 0)
    && (forall c :: Closers(ls, c) == offers[AsCloser(c)])
  }

  ghost predicate Precedes(ls: seq<Lifecycle>, a: Lifecycle, b: Lifecycle) {
    forall x, y :: 0 <= x < |ls| && 0 <= y < |ls| && ls[x] == a && ls[y] == b ==> x < y
  }

  /** Pointers are in the order of their first offers. */
  ghost predicate FirstOfferedFirst(offers: seq<Offer>, ls: seq<Lifecycle>) {
    forall i, j, a, b ::
      (0 <= i < j < |offers| && offers[i] == AsLifecycle(Pointer(a)) && offers[j] == AsLifecycle(Pointer(b))
       && offers[j] !in offers[..j]) ==> Precedes(ls, Pointer(a), Pointer(b))
  }

  lemma {:induction false} RegisterMore(r: Registry, a: seq<Offer>, b: seq<Offer>)
    ensures RegisterAll(r, a + b) == RegisterAll(RegisterAll(r, a), b)
    decreases |a|
  {
    if a == [] {
      assert a + b == b;
    } else {
      assert (a + b)[1..] == a[1..] + b;
      RegisterMore(Register(r, a[0]), a[1..], b);
    }
  }

  lemma {:induction false} AllOffersAppend(a: seq<Plugin>, b: seq<Plugin>)
    ensures AllOffers(a + b) == AllOffers(a) + AllOffers(b)
    decreases |a|
  {
    if a == [] {
      assert a + b == b;
    } else {
      assert (a + b)[1..] == a[1..] + b;
      AllOffersAppend(a[1..], b);
    }
  }

  lemma AddCounts(ls: seq<Lifecycle>, l: Lifecycle, c: nat)
    ensures multiset(ls + [l]) == multiset(ls) + multiset{l}
    ensures Closers(ls + [l], c) == Closers(ls, c) + (if l.Wrapper? && l.closer == c then 1 else 0)
  {
    assert (ls + [l])[..|ls|] == ls;
  }

  lemma KnownExactly(ls: seq<Lifecycle>, l: Lifecycle)
    ensures l.Pointer? ==> (Known(ls, l) <==> l in ls)
    ensures l.Plain? ==> (Known(ls, l) <==> l.typ.comparable && l in ls)
  {
    if l in ls && (l.Plain? ==> l.typ.comparable) && !l.Wrapper? {
      var i :| 0 <= i < |ls| && ls[i] == l;
      assert Same(ls[i], l);
    }
  }

  lemma TallyStays(ls: seq<Lifecycle>, offers: multiset<Offer>, o: Offer)
    requires Tallied(offers, ls)
    requires o == Neither || (o.AsLifecycle? && o in offers && (o.l.Pointer? || (o.l.Plain? && o.l.typ.comparable)))
    ensures Tallied(offers + multiset{o}, ls)
  {
    hide Closers;
  }

  lemma TallyGrows(ls: seq<Lifecycle>, offers: multiset<Offer>, o: Offer, l: Lifecycle)
    requires Tallied(offers, ls)
    requires (o == AsLifecycle(l) && (l.Pointer? || (l.Plain? && l.typ.comparable)) && o !in offers)
      || (o == AsLifecycle(l) && l.Plain? && !l.typ.comparable)
      || (l.Wrapper? && o == AsCloser(l.closer))
    ensures Tallied(offers + multiset{o}, ls + [l])
  {
    forall c {
      AddCounts(ls, l, c);
    }
    hide Closers;
  }

  lemma TallyStep(r: Registry, offers: multiset<Offer>, o: Offer)
    requires Fresh(r) && Tallied(offers, r.lifecycles) && (o.AsLifecycle? ==> !o.l.Wrapper?)
    ensures Tallied(offers + multiset{o}, Register(r, o).lifecycles)
  {
    var ls := r.lifecycles;
    match o
    case AsLifecycle(l) =>
      KnownExactly(ls, l);
      OfferedMeansKept(ls, offers, l);
      hide Known, Tallied;
      if Known(ls, l) {
        TallyStays(ls, offers, o);
      } else {
        TallyGrows(ls, offers, o, l);
      }
    case AsCloser(_) =>
      var w := Wrapper(r.wrappers, o.closer);
      assert !Known(ls, w);
      hide Known, Tallied;
      TallyGrows(ls, offers, o, w);
    case Neither => TallyStays(ls, offers, o);
  }

  lemma OfferedMeansKept(ls: seq<Lifecycle>, offers: multiset<Offer>, l: Lifecycle)
    requires Tallied(offers, ls) && !l.Wrapper?
    ensures l in ls <==> AsLifecycle(l) in offers
  {
    hide Closers;
    assert l in ls <==> multiset(ls)[l] > 0;
  }

  /** Registering a list of offers, from nothing, leaves what the offers say. */
  lemma {:induction false} RegisteredAsOffered(os: seq<Offer>)
    requires Foreign(os)
    ensures var r := RegisterAll(EMPTY, os);
      Fresh(r) && Tallied(multiset(os), r.lifecycles) && FirstOfferedFirst(os, r.lifecycles)
    decreases |os|
  {
    if os != [] {
      var (most, o) := (os[..|os| - 1], os[|os| - 1]);
      assert os == most + [o] && multiset(os) == multiset(most) + multiset{o};
      RegisteredAsOffered(most);
      RegisterMore(EMPTY, most, [o]);
      assert [o][1..] == [];
      var r := RegisterAll(EMPTY, most);
      assert RegisterAll(EMPTY, os) == Register(r, o);
      FreshStep(r, o);
      hide Fresh, Tallied, FirstOfferedFirst, Register;
      TallyStep(r, multiset(most), o);
      OrderStep(r, most, o);
    }
  }

  lemma FreshStep(r: Registry, o: Offer)
    requires Fresh(r) && (o.AsLifecycle? ==> !o.l.Wrapper?)
    ensures Fresh(Register(r, o))
  {
  }

  lemma OrderStep(r: Registry, os: seq<Offer>, o: Offer)
    requires FirstOfferedFirst(os, r.lifecycles) && Tallied(multiset(os), r.lifecycles)
    ensures FirstOfferedFirst(os + [o], Register(r, o).lifecycles)
  {
    var (ls, after, all) := (r.lifecycles, Register(r, o).lifecycles, os + [o]);
    forall i, j, a, b |
      (0 <= i < j < |all| && all[i] == AsLifecycle(Pointer(a)) && all[j] == AsLifecycle(Pointer(b))
       && all[j] !in all[..j])
      ensures Precedes(after, Pointer(a), Pointer(b))
    {
      hide Tallied, Register;
      assert all[..j] == os[..j];
      OfferedMeansKept(ls, multiset(os), Pointer(a));
      OfferedMeansKept(ls, multiset(os), Pointer(b));
      assert os[i] in multiset(os);
      NotAddedAgain(r, o, Pointer(a));
      if j < |os| {
        assert Precedes(ls, Pointer(a), Pointer(b)) && os[j] in multiset(os);
        NotAddedAgain(r, o, Pointer(b));
      } else {
        assert os[..j] == os && o !in multiset(os);
      }
    }
  }

  lemma NotAddedAgain(r: Registry, o: Offer, l: Lifecycle)
    requires l.Pointer? && l in r.lifecycles
    ensures var (ls, after) := (r.lifecycles, Register(r, o).lifecycles);
      ls <= after && forall i :: |ls| <= i < |after| ==> after[i] != l
  {
    KnownExactly(r.lifecycles, l);
  }

  // ---------------------------------------------------------------- ownership and order

  /** Entry `p` was registered by plugin `owners[p]`; entries follow the plugin order. */
  ghost predicate Owned(plugins: seq<Plugin>, ls: seq<Lifecycle>, owners: seq<nat>) {
    && |owners| == |ls|
    && (forall p, q :: 0 <= p < q < |owners| ==> owners[p] <= owners[q])
    && (forall p :: 0 <= p < |owners| ==> owners[p] < |plugins| && OfferedBy(plugins[owners[p]], ls[p]))
  }

  predicate OfferedBy(plugin: Plugin, l: Lifecycle) {
    if l.Wrapper? then AsCloser(l.closer) in plugin.Offers() else AsLifecycle(l) in plugin.Offers()
  }

  /** One entry could stand for both. */
  predicate Overlap(a: Offer, b: Offer) {
    match (a, b)
    case (AsLifecycle(l), AsLifecycle(k)) => l == k || Same(l, k) || Same(k, l)
    case (AsCloser(c), AsCloser(d)) => c == d
    case _ => false
  }

  /** No other module offers the same. */
  ghost predicate OwnOffer(plugins: seq<Plugin>, plugin: Plugin, o: Offer) {
    forall p, other :: p in plugins && p != plugin && other in p.Offers() ==> !Overlap(other, o)
  }

  function Modules(plugins: seq<Plugin>): (r: seq<PluginOrder.Module>)
    ensures |r| == |plugins| && forall i :: 0 <= i < |r| ==> r[i] == plugins[i].mod
  {
    if plugins == [] then [] else [plugins[0].mod] + Modules(plugins[1..])
  }

  function Reverse<T>(s: seq<T>): (r: seq<T>)
    ensures |r| == |s| && forall i :: 0 <= i < |s| ==> r[i] == s[|s| - 1 - i]
  {
    if s == [] then [] else Reverse(s[1..]) + [s[0]]
  }

  /** Whatever path of dependencies leads from plugin `d` to plugin `m`, each entry of `d`
      is stopped before each entry of `m`. */
  lemma DependentsStopFirst(plugins: seq<Plugin>, byID: PluginOrder.Index, ls: seq<Lifecycle>, owners: seq<nat>,
                            d: nat, m: nat, path: seq<string>, p: nat, q: nat)
    requires PluginOrder.Indexes(byID, Modules(plugins)) && PluginOrder.Topological(Modules(plugins), Modules(plugins))
    requires d < |plugins| && m < |plugins|
    requires PluginOrder.Walk(byID, path) && |path| > 1
    requires path[0] == plugins[d].mod.id && path[|path| - 1] == plugins[m].mod.id
    requires Owned(plugins, ls, owners) && p < |ls| && q < |ls| && owners[p] == d && owners[q] == m
    ensures var x, y := |ls| - 1 - p, |ls| - 1 - q;
      x < y && Reverse(ls)[x] == ls[p] && Reverse(ls)[y] == ls[q]
  {
    var order := Modules(plugins);
    var j := PluginOrder.WalkDescends(byID, order, path, d, |path| - 1);
    assert order[j].id == order[m].id;
    assert j == m && q < p;
  }

  /** If no other module offers the same, the entry standing for an offer belongs to the plugin
      that made it. */
  lemma EntryOwner(plugins: seq<Plugin>, ls: seq<Lifecycle>, owners: seq<nat>, plugin: Plugin, o: Offer, p: nat)
    requires Owned(plugins, ls, owners) && OwnOffer(plugins, plugin, o) && (o.AsLifecycle? ==> !o.l.Wrapper?)
    requires p < |ls| && Represents(ls[p], o)
    ensures plugins[owners[p]] == plugin
  {
    assert OfferedBy(plugins[owners[p]], ls[p]);
    var made := if ls[p].Wrapper? then AsCloser(ls[p].closer) else AsLifecycle(ls[p]);
    assert made in plugins[owners[p]].Offers() && Overlap(made, o);
  }

  /** Registering the offers of plugin `i` extends the entries by a block owned by it. */
  lemma {:induction false} OffersFormBlock(plugins: seq<Plugin>, i: nat, r: Registry, os: seq<Offer>, owners: seq<nat>)
    returns (now: seq<nat>)
    requires i < |plugins| && Foreign(os) && forall o :: o in os ==> o in plugins[i].Offers()
    requires Owned(plugins, r.lifecycles, owners) && forall p :: 0 <= p < |owners| ==> owners[p] <= i
    ensures Owned(plugins, RegisterAll(r, os).lifecycles, now) && forall p :: 0 <= p < |now| ==> now[p] <= i
    decreases |os|
  {
    if os == [] {
      now := owners;
    } else {
      assert os[0] in os && Foreign(os[1..]);
      var n := Register(r, os[0]);
      now := if n.lifecycles == r.lifecycles then owners else owners + [i];
      now := OffersFormBlock(plugins, i, n, os[1..], now);
    }
  }

  /** Everything offered ends up represented by an entry. */
  lemma {:induction false} OffersAreRepresented(r: Registry, os: seq<Offer>)
    requires NoTwoSame(r.lifecycles) && Fresh(r) && Foreign(os)
    ensures forall o :: o in os ==> Stands(RegisterAll(r, os).lifecycles, o)
    decreases |os|
  {
    if os != [] {
      assert Foreign([os[0]]) && Foreign(os[1..]);
      var n := Register(r, os[0]);
      RegisterKeeps(r, os[0], 0);
      RegisterStands(r, os[0]);
      OffersAreRepresented(n, os[1..]);
      ClosersAreNotDeduplicated(n, os[1..], 0);
      StandsLonger(n.lifecycles, RegisterAll(r, os).lifecycles, os[0]);
    }
  }

  lemma StandsLonger(was: seq<Lifecycle>, now: seq<Lifecycle>, o: Offer)
    requires was <= now && Stands(was, o)
    ensures Stands(now, o)
  {
    if o != Neither {
      var i :| 0 <= i < |was| && Represents(was[i], o);
      assert Represents(now[i], o);
    }
  }

  /** Everything the first k plugins offered is represented. */
  ghost predicate AllStand(ls: seq<Lifecycle>, plugins: seq<Plugin>, k: nat)
    requires k <= |plugins|
  {
    forall j, o :: 0 <= j < k && o in plugins[j].Offers() ==> Stands(ls, o)
  }

  lemma OneMoreStands(was: seq<Lifecycle>, now: seq<Lifecycle>, plugins: seq<Plugin>, k: nat)
    requires was <= now && k < |plugins| && AllStand(was, plugins, k)
    requires forall o :: o in plugins[k].Offers() ==> Stands(now, o)
    ensures AllStand(now, plugins, k + 1)
  {
    forall j, o | 0 <= j < k && o in plugins[j].Offers() ensures Stands(now, o) {
      StandsLonger(was, now, o);
    }
  }

  // ---------------------------------------------------------------- from configuration to shutdown

  ghost predicate DependsOn(byID: PluginOrder.Index, d: Plugin, m: Plugin) {
    exists path :: PluginOrder.Walk(byID, path) && |path| > 1 && path[0] == d.mod.id && path[|path| - 1] == m.mod.id
  }

  /** In this trace of Stop calls whatever stands for the first offer comes before whatever
      stands for the second. */
  ghost predicate StopsBefore(stopped: seq<Lifecycle>, a: Offer, b: Offer) {
    forall x, y ::
      0 <= x < |stopped| && 0 <= y < |stopped| && Represents(stopped[x], a) && Represents(stopped[y], b) ==>
        x < y
  }

  /** What shutdown owes to a set of plugins: each lifecycle is stopped once, everything offered
      is stopped, and what a dependent alone offers before what its dependency alone offers. */
  ghost predicate StoppedInOrder(byID: PluginOrder.Index, plugins: seq<Plugin>, stopped: seq<Lifecycle>) {
    && (forall x, y :: 0 <= x < y < |stopped| ==> !Same(stopped[y], stopped[x]))
    && (forall p, o :: p in plugins && o in p.Offers() ==> Stands(stopped, o))
    && (forall d, m, a, b ::
          (d in plugins && m in plugins && DependsOn(byID, d, m) && a in d.Offers() && b in m.Offers()
           && OwnOffer(plugins, d, a) && OwnOffer(plugins, m, b)) ==> StopsBefore(stopped, a, b))
  }

  /** The plugin with this module. */
  function Bearer(plugins: seq<Plugin>, m: PluginOrder.Module): (p: Plugin)
    requires m in Modules(plugins)
    ensures p in plugins && p.mod == m
  {
    if plugins[0].mod == m then plugins[0] else Bearer(plugins[1..], m)
  }

  /** The plugins in the order of their modules. */
  function Arrange(plugins: seq<Plugin>, order: seq<PluginOrder.Module>): (r: seq<Plugin>)
    requires forall m :: m in order ==> m in Modules(plugins)
    ensures |r| == |order| && forall i :: 0 <= i < |r| ==> r[i] in plugins && r[i].mod == order[i]
  {
    if order == [] then [] else [Bearer(plugins, order[0])] + Arrange(plugins, order[1..])
  }

  lemma ArrangeIsPermutation(plugins: seq<Plugin>, order: seq<PluginOrder.Module>)
    requires PluginOrder.DistinctIDs(Modules(plugins)) && forall m :: m in order <==> m in Modules(plugins)
    ensures var sorted := Arrange(plugins, order);
      Modules(sorted) == order && forall p :: p in sorted <==> p in plugins
  {
    var sorted := Arrange(plugins, order);
    forall p | p in plugins ensures p in sorted {
      var i :| 0 <= i < |plugins| && plugins[i] == p;
      assert Modules(plugins)[i] in Modules(plugins) && p.mod in order;
      var k :| 0 <= k < |order| && order[k] == p.mod;
      SameModuleSamePlugin(plugins, i, sorted[k]);
    }
  }

  lemma {:induction false} SameModuleSamePlugin(plugins: seq<Plugin>, i: nat, p: Plugin)
    requires PluginOrder.DistinctIDs(Modules(plugins)) && i < |plugins| && p in plugins && p.mod == plugins[i].mod
    ensures p == plugins[i]
  {
    var j :| 0 <= j < |plugins| && plugins[j] == p;
    assert Modules(plugins)[j].id == Modules(plugins)[i].id;
  }

  lemma SortedIndex(byID: PluginOrder.Index, modules: seq<PluginOrder.Module>, order: seq<PluginOrder.Module>)
    requires PluginOrder.Indexes(byID, modules) && PluginOrder.Topological(order, modules)
    ensures PluginOrder.DistinctIDs(modules) && PluginOrder.DistinctIDs(order)
    ensures forall m :: m in order <==> m in modules
    ensures PluginOrder.Indexes(byID, order) && PluginOrder.Topological(order, order)
  {
    hide PluginOrder.DependencyFirst;
  }

  lemma OffersStopInOrder(plugins: seq<Plugin>, byID: PluginOrder.Index, ls: seq<Lifecycle>, owners: seq<nat>,
                          d: Plugin, m: Plugin, a: Offer, b: Offer)
    requires PluginOrder.Indexes(byID, Modules(plugins)) && PluginOrder.Topological(Modules(plugins), Modules(plugins))
    requires Owned(plugins, ls, owners) && d in plugins && m in plugins && DependsOn(byID, d, m)
    requires OwnOffer(plugins, d, a) && OwnOffer(plugins, m, b)
    requires (a.AsLifecycle? ==> !a.l.Wrapper?) && (b.AsLifecycle? ==> !b.l.Wrapper?)
    ensures StopsBefore(Reverse(ls), a, b)
  {
    hide PluginOrder.Walk, PluginOrder.Topological, PluginOrder.Indexes, Owned, OwnOffer, Represents;
    var stopped := Reverse(ls);
    var path :| PluginOrder.Walk(byID, path) && |path| > 1 && path[0] == d.mod.id && path[|path| - 1] == m.mod.id;
    forall x, y | 0 <= x < |stopped| && 0 <= y < |stopped| && Represents(stopped[x], a) && Represents(stopped[y], b)
      ensures x < y
    {
      var (p, q) := (|ls| - 1 - x, |ls| - 1 - y);
      OwnerBounds(plugins, ls, owners);
      EntryOwner(plugins, ls, owners, d, a, p);
      EntryOwner(plugins, ls, owners, m, b, q);
      DependentsStopFirst(plugins, byID, ls, owners, owners[p], owners[q], path, p, q);
    }
  }

  lemma OwnerBounds(plugins: seq<Plugin>, ls: seq<Lifecycle>, owners: seq<nat>)
    requires Owned(plugins, ls, owners)
    ensures |owners| == |ls| && forall p :: 0 <= p < |owners| ==> owners[p] < |plugins|
  {
  }

  lemma ReversedStands(ls: seq<Lifecycle>, o: Offer)
    requires Stands(ls, o)
    ensures Stands(Reverse(ls), o)
  {
    if o != Neither {
      var i :| 0 <= i < |ls| && Represents(ls[i], o);
      assert Represents(Reverse(ls)[|ls| - 1 - i], o);
    }
  }

  lemma ReversedNoTwoSame(ls: seq<Lifecycle>)
    requires NoTwoSame(ls)
    ensures var s := Reverse(ls); forall x, y :: 0 <= x < y < |s| ==> !Same(s[y], s[x])
  {
    var s := Reverse(ls);
    forall x, y | 0 <= x < y < |s| ensures !Same(s[y], s[x]) {
      assert !Same(ls[|ls| - 1 - y], ls[|ls| - 1 - x]);
    }
  }

  lemma ShutdownInOrder(byID: PluginOrder.Index, plugins: seq<Plugin>, sorted: seq<Plugin>, ls: seq<Lifecycle>,
                        owners: seq<nat>)
    requires PluginOrder.Indexes(byID, Modules(sorted)) && PluginOrder.Topological(Modules(sorted), Modules(sorted))
    requires (forall p :: p in sorted <==> p in plugins) && forall p :: p in plugins ==> Foreign(p.Offers())
    requires Owned(sorted, ls, owners) && NoTwoSame(ls) && AllStand(ls, sorted, |sorted|)
    ensures StoppedInOrder(byID, plugins, Reverse(ls))
  {
    hide PluginOrder.Indexes, PluginOrder.Topological, Owned, NoTwoSame, Stands, DependsOn, StopsBefore,
         Represents, Reverse;
    ReversedNoTwoSame(ls);
    forall p, o | p in plugins && o in p.Offers() ensures Stands(Reverse(ls), o) {
      var j :| 0 <= j < |sorted| && sorted[j] == p;
      assert o in sorted[j].Offers();
      ReversedStands(ls, o);
    }
    forall d, m, a, b |
      (d in plugins && m in plugins && DependsOn(byID, d, m) && a in d.Offers() && b in m.Offers()
       && OwnOffer(plugins, d, a) && OwnOffer(plugins, m, b))
      ensures StopsBefore(Reverse(ls), a, b)
    {
      SameOwnOffer(plugins, sorted, d, a);
      SameOwnOffer(plugins, sorted, m, b);
      ForeignOffer(d.Offers(), a);
      ForeignOffer(m.Offers(), b);
      OffersStopInOrder(sorted, byID, ls, owners, d, m, a, b);
    }
  }

  lemma SameOwnOffer(plugins: seq<Plugin>, sorted: seq<Plugin>, plugin: Plugin, o: Offer)
    requires (forall p :: p in sorted <==> p in plugins) && OwnOffer(plugins, plugin, o)
    ensures OwnOffer(sorted, plugin, o)
  {
  }

  lemma ForeignOffer(os: seq<Offer>, o: Offer)
    requires Foreign(os) && o in os
    ensures o.AsLifecycle? ==> !o.l.Wrapper?
  {
  }

  // ---------------------------------------------------------------- the trace of Stop calls

  /** What was offered is stopped as often as it was registered, and pointers in the reverse
      order of their first offers. */
  ghost predicate StoppedAsOffered(plugins: seq<Plugin>, sorted: seq<Plugin>, stopped: seq<Lifecycle>) {
    && Tallied(multiset(AllOffers(plugins)), stopped)
    && FirstOfferedFirst(AllOffers(sorted), Reverse(stopped))
  }

  lemma OffersSoFar(plugins: seq<Plugin>, i: nat)
    requires i < |plugins|
    ensures AllOffers(plugins[..i + 1]) == AllOffers(plugins[..i]) + plugins[i].Offers()
  {
    assert plugins[..i + 1] == plugins[..i] + [plugins[i]];
    AllOffersAppend(plugins[..i], [plugins[i]]);
    assert [plugins[i]][1..] == [];
  }

  lemma RegisteredSoFar(plugins: seq<Plugin>, i: nat)
    requires i < |plugins|
    ensures RegisterAll(EMPTY, AllOffers(plugins[..i + 1]))
      == RegisterAll(RegisterAll(EMPTY, AllOffers(plugins[..i])), plugins[i].Offers())
  {
    OffersSoFar(plugins, i);
    RegisterMore(EMPTY, AllOffers(plugins[..i]), plugins[i].Offers());
  }

  lemma WithoutOne<T>(s: seq<T>, i: nat)
    requires i < |s|
    ensures multiset(s) == multiset(s[..i] + s[i + 1..]) + multiset{s[i]}
  {
    assert s == s[..i] + ([s[i]] + s[i + 1..]);
  }

  lemma SameRest<T>(a: seq<T>, i: nat, b: seq<T>, j: nat)
    requires i < |a| && j < |b| && a[i] == b[j] && multiset(a) == multiset(b)
    ensures multiset(a[..i] + a[i + 1..]) == multiset(b[..j] + b[j + 1..])
  {
    WithoutOne(a, i);
    WithoutOne(b, j);
    var (less, rest) := (a[..i] + a[i + 1..], b[..j] + b[j + 1..]);
    assert multiset(less) == multiset(a) - multiset{a[i]};
    assert multiset(rest) == multiset(b) - multiset{a[i]};
  }

  lemma OffersWithoutOne(plugins: seq<Plugin>, i: nat)
    requires i < |plugins|
    ensures multiset(AllOffers(plugins))
      == multiset(AllOffers(plugins[..i] + plugins[i + 1..])) + multiset(AllOffers([plugins[i]]))
  {
    hide AllOffers;
    assert plugins == plugins[..i] + ([plugins[i]] + plugins[i + 1..]);
    AllOffersAppend(plugins[..i], [plugins[i]] + plugins[i + 1..]);
    AllOffersAppend([plugins[i]], plugins[i + 1..]);
    AllOffersAppend(plugins[..i], plugins[i + 1..]);
  }

  lemma {:induction false} PermutedOffers(a: seq<Plugin>, b: seq<Plugin>)
    requires multiset(a) == multiset(b)
    ensures multiset(AllOffers(a)) == multiset(AllOffers(b))
    decreases |a|
  {
    hide AllOffers;
    if a == [] {
      assert |b| == |multiset(b)| == 0;
    } else {
      assert a[0] in multiset(b);
      var i :| 0 <= i < |b| && b[i] == a[0];
      var (less, rest) := (a[..0] + a[1..], b[..i] + b[i + 1..]);
      SameRest(a, 0, b, i);
      PermutedOffers(less, rest);
      OffersWithoutOne(a, 0);
      OffersWithoutOne(b, i);
    }
  }

  lemma {:induction false} DistinctMultiset<T>(s: seq<T>, x: T)
    requires forall i, j :: 0 <= i < j < |s| ==> s[i] != s[j]
    ensures multiset(s)[x] == if x in s then 1 else 0
  {
    if s != [] {
      DistinctMultiset(s[1..], x);
      assert s == [s[0]] + s[1..];
    }
  }

  lemma {:induction false} SortedMultiset(plugins: seq<Plugin>, sorted: seq<Plugin>)
    requires PluginOrder.DistinctIDs(Modules(plugins)) && PluginOrder.DistinctIDs(Modules(sorted))
    requires forall p :: p in sorted <==> p in plugins
    ensures multiset(sorted) == multiset(plugins)
  {
    NoPluginTwice(plugins);
    NoPluginTwice(sorted);
    forall p ensures multiset(sorted)[p] == multiset(plugins)[p] {
      DistinctMultiset(plugins, p);
      DistinctMultiset(sorted, p);
    }
  }

  lemma {:induction false} NoPluginTwice(plugins: seq<Plugin>)
    requires PluginOrder.DistinctIDs(Modules(plugins))
    ensures forall i, j :: 0 <= i < j < |plugins| ==> plugins[i] != plugins[j]
  {
    forall i, j | 0 <= i < j < |plugins| ensures plugins[i] != plugins[j] {
      assert Modules(plugins)[i].id != Modules(plugins)[j].id;
    }
  }

  lemma {:induction false} ClosersAppend(a: seq<Lifecycle>, b: seq<Lifecycle>, c: nat)
    ensures Closers(a + b, c) == Closers(a, c) + Closers(b, c)
    decreases |b|
  {
    if b == [] {
      assert a + b == a;
    } else {
      assert (a + b)[..|a + b| - 1] == a + b[..|b| - 1];
      ClosersAppend(a, b[..|b| - 1], c);
    }
  }

  lemma {:induction false} ReverseMultiset<T>(s: seq<T>)
    ensures multiset(Reverse(s)) == multiset(s)
  {
    if s != [] {
      ReverseMultiset(s[1..]);
      assert s == [s[0]] + s[1..];
    }
  }

  lemma {:induction false} ReverseClosers(ls: seq<Lifecycle>, c: nat)
    ensures Closers(Reverse(ls), c) == Closers(ls, c)
  {
    if ls != [] {
      ReverseClosers(ls[1..], c);
      assert ls == [ls[0]] + ls[1..];
      ClosersAppend(Reverse(ls[1..]), [ls[0]], c);
      ClosersAppend([ls[0]], ls[1..], c);
    }
  }

  lemma ReverseTally(offers: multiset<Offer>, ls: seq<Lifecycle>)
    requires Tallied(offers, ls)
    ensures Tallied(offers, Reverse(ls)) && Reverse(Reverse(ls)) == ls
  {
    hide Closers;
    ReverseMultiset(ls);
    forall c {
      ReverseClosers(ls, c);
    }
  }

  lemma {:induction false} AllForeign(plugins: seq<Plugin>)
    requires forall p :: p in plugins ==> Foreign(p.Offers())
    ensures Foreign(AllOffers(plugins))
  {
    if plugins != [] {
      AllForeign(plugins[1..]);
      assert plugins[0].Offers() == [plugins[0].self] + plugins[0].capabilities;
    }
  }

  lemma StoppedFollowsOffers(plugins: seq<Plugin>, sorted: seq<Plugin>, ls: seq<Lifecycle>)
    requires PluginOrder.DistinctIDs(Modules(plugins)) && PluginOrder.DistinctIDs(Modules(sorted))
    requires (forall p :: p in sorted <==> p in plugins) && forall p :: p in plugins ==> Foreign(p.Offers())
    requires ls == RegisterAll(EMPTY, AllOffers(sorted)).lifecycles
    ensures StoppedAsOffered(plugins, sorted, Reverse(ls))
  {
    hide Foreign, FirstOfferedFirst, Tallied, PluginOrder.DistinctIDs, AllOffers, RegisterAll, Reverse;
    AllForeign(sorted);
    RegisteredAsOffered(AllOffers(sorted));
    SortedMultiset(plugins, sorted);
    PermutedOffers(sorted, plugins);
    ReverseTally(multiset(AllOffers(plugins)), ls);
  }

  lemma NothingYet(plugins: seq<Plugin>)
    ensures Owned(plugins, EMPTY.lifecycles, []) && NoTwoSame(EMPTY.lifecycles) && Fresh(EMPTY)
    ensures AllStand(EMPTY.lifecycles, plugins, 0) && RegisterAll(EMPTY, AllOffers(plugins[..0])) == EMPTY
  {
  }

  lemma BlockAdded(plugins: seq<Plugin>, i: nat, was: Registry, owners: seq<nat>) returns (now: seq<nat>)
    requires i < |plugins| && Foreign(plugins[i].Offers()) && forall p :: 0 <= p < |owners| ==> owners[p] <= i
    requires Owned(plugins, was.lifecycles, owners) && NoTwoSame(was.lifecycles) && Fresh(was)
    requires AllStand(was.lifecycles, plugins, i)
    ensures var r := RegisterAll(was, plugins[i].Offers());
      && Owned(plugins, r.lifecycles, now) && NoTwoSame(r.lifecycles) && Fresh(r)
      && AllStand(r.lifecycles, plugins, i + 1)
    ensures forall p :: 0 <= p < |now| ==> now[p] <= i
  {
    hide Owned, NoTwoSame, AllStand, RegisterAll, Foreign, Stands, Fresh;
    var r := RegisterAll(was, plugins[i].Offers());
    now := OffersFormBlock(plugins, i, was, plugins[i].Offers(), owners);
    ClosersAreNotDeduplicated(was, plugins[i].Offers(), 0);
    OffersAreRepresented(was, plugins[i].Offers());
    OneMoreStands(was.lifecycles, r.lifecycles, plugins, i);
  }

  // ---------------------------------------------------------------- the engine

  class Engine {
    var lifecycles: seq<Lifecycle>
    var wrappers: nat
    var closed: bool
    var stopped: seq<Lifecycle>  // every Stop call made so far

    constructor ()
      ensures Reg() == EMPTY && !closed && stopped == []
    {
      lifecycles, wrappers, closed, stopped := [], 0, false, [];
    }

    function Reg(): Registry
      reads this
    {
      Registry(lifecycles, wrappers)
    }

    method RegisterLifecycle(l: Lifecycle)
      modifies this`lifecycles
      ensures Known(old(lifecycles), l) ==> lifecycles == old(lifecycles)
      ensures !Known(old(lifecycles), l) ==> lifecycles == old(lifecycles) + [l]
    {
      for i := 0 to |lifecycles|
        invariant forall j :: 0 <= j < i ==> !Same(lifecycles[j], l)
        invariant lifecycles == old(lifecycles)
      {
        if Same(lifecycles[i], l) {
          return;
        }
      }
      lifecycles := lifecycles + [l];
    }

    method Provide(o: Offer)
      modifies this`lifecycles, this`wrappers
      ensures Reg() == Register(old(Reg()), o)
    {
      match o
      case AsLifecycle(l) => RegisterLifecycle(l);
      case AsCloser(c) =>
        var w := Wrapper(wrappers, c);
        wrappers := wrappers + 1;
        RegisterLifecycle(w);
      case Neither =>
    }

    /** A plugin registers itself, then what its Init provides. */
    method InitPlugin(plugin: Plugin)
      modifies this`lifecycles, this`wrappers
      ensures Reg() == RegisterAll(old(Reg()), plugin.Offers())
    {
      var offers := plugin.Offers();
      var n := 0;
      assert offers[0..] == offers;
      while n < |offers|
        invariant 0 <= n <= |offers|
        invariant RegisterAll(Reg(), offers[n..]) == RegisterAll(old(Reg()), offers)
      {
        assert offers[n..][1..] == offers[n + 1..];
        Provide(offers[n]);
        n := n + 1;
      }
    }

    /** Initializes sorted plugins; the first failing Init ends the loop and leaves the
        registrations made so far in place. */
    method InitPlugins(plugins: seq<Plugin>) returns (failed: Option<nat>, ghost owners: seq<nat>)
      requires Reg() == EMPTY
      requires forall i :: 0 <= i < |plugins| ==> Foreign(plugins[i].Offers())
      modifies this`lifecycles, this`wrappers
      ensures failed.None? <==> forall i :: 0 <= i < |plugins| ==> !plugins[i].initFails
      ensures failed.Some? ==> failed.value < |plugins| && plugins[failed.value].initFails
      ensures failed.Some? ==> forall i :: 0 <= i < failed.value ==> !plugins[i].initFails
      ensures Reg() == RegisterAll(EMPTY, AllOffers(plugins[..if failed.Some? then failed.value + 1 else |plugins|]))
      ensures Owned(plugins, lifecycles, owners) && NoTwoSame(lifecycles)
      ensures AllStand(lifecycles, plugins, if failed.Some? then failed.value + 1 else |plugins|)
    {
      hide Owned, NoTwoSame, AllStand, RegisterAll, Foreign, Fresh, AllOffers;
      NothingYet(plugins);
      owners := [];
      for i := 0 to |plugins|
        invariant forall k :: 0 <= k < i ==> !plugins[k].initFails
        invariant Owned(plugins, lifecycles, owners) && NoTwoSame(lifecycles) && Fresh(Reg())
        invariant forall p :: 0 <= p < |owners| ==> owners[p] <= i
        invariant AllStand(lifecycles, plugins, i)
        invariant Reg() == RegisterAll(EMPTY, AllOffers(plugins[..i]))
      {
        ghost var was := Reg();
        InitPlugin(plugins[i]);
        RegisteredSoFar(plugins, i);
        owners := BlockAdded(plugins, i, was, owners);
        if plugins[i].initFails {
          return Some(i), owners;
        }
      }
      assert plugins[..|plugins|] == plugins;
      failed := None;
    }

    /** Stops everything once, last registered first, and reports every failure. */
    method Close(fails: Lifecycle -> bool) returns (errs: seq<Lifecycle>)
      modifies this`closed, this`stopped
      ensures closed
      ensures old(closed) ==> stopped == old(stopped) && errs == []
      ensures !old(closed) ==> stopped == old(stopped) + Reverse(lifecycles)
      ensures !old(closed) ==> forall l :: l in errs <==> l in lifecycles && fails(l)
    {
      errs := [];
      if closed {
        return;
      }
      closed := true;
      var i := |lifecycles|;
      while i > 0
        invariant 0 <= i <= |lifecycles| && closed
        invariant stopped == old(stopped) + Reverse(lifecycles)[..|lifecycles| - i]
        invariant forall l :: l in errs <==> l in lifecycles[i..] && fails(l)
      {
        i := i - 1;
        stopped := stopped + [lifecycles[i]];
        if fails(lifecycles[i]) {
          errs := errs + [lifecycles[i]];
        }
        assert lifecycles[i..] == [lifecycles[i]] + lifecycles[i + 1..];
      }
      assert Reverse(lifecycles)[..|lifecycles|] == Reverse(lifecycles);
    }
  }

  /** An engine from its configuration to its end: the plugins are sorted and initialized, and
      the engine is closed once. A configuration is refused exactly when it has no topological
      order; if nothing fails, everything offered is stopped, dependents before dependencies. */
  method StartThenClose(plugins: seq<Plugin>, byID: PluginOrder.Index, fails: Lifecycle -> bool)
    returns (r: Result<Option<nat>, PluginOrder.Error>, stopped: seq<Lifecycle>, ghost sorted: seq<Plugin>)
    requires PluginOrder.Indexes(byID, Modules(plugins)) && forall p :: p in plugins ==> Foreign(p.Offers())
    ensures r.Ok? <==> exists order :: PluginOrder.Topological(order, Modules(plugins))
    ensures r == Ok(None) <==> r.Ok? && forall p :: p in plugins ==> !p.initFails
    ensures r == Ok(None) ==> StoppedInOrder(byID, plugins, stopped)
    ensures r.Ok? ==> PluginOrder.Topological(Modules(sorted), Modules(plugins))
    ensures r.Ok? ==> multiset(sorted) == multiset(plugins)
    ensures r == Ok(None) ==> StoppedAsOffered(plugins, sorted, stopped)
  {
    hide PluginOrder.Indexes, PluginOrder.Topological, PluginOrder.Cyclic, PluginOrder.AllConfigured,
         PluginOrder.Grouped, PluginOrder.DependencyFirst, PluginOrder.DistinctIDs, PluginOrder.Justified,
         Owned, NoTwoSame, AllStand, StoppedInOrder, StoppedAsOffered, Foreign, Modules, Arrange, Reverse, AllOffers,
         RegisterAll;
    var order, _ := PluginOrder.InitOrder(Modules(plugins), byID);
    if order.Err? {
      return Err(order.error), [], [];
    }
    SortedIndex(byID, Modules(plugins), order.value);
    ArrangeIsPermutation(plugins, order.value);
    var arranged := Arrange(plugins, order.value);
    sorted := arranged;
    SortedMultiset(plugins, sorted);
    var engine := new Engine();
    var failed, owners := engine.InitPlugins(arranged);
    var _ := engine.Close(fails);
    stopped := engine.stopped;
    if failed.None? {
      ShutdownInOrder(byID, plugins, sorted, engine.lifecycles, owners);
      assert sorted[..|sorted|] == sorted;
      StoppedFollowsOffers(plugins, sorted, engine.lifecycles);
      assert [] + Reverse(engine.lifecycles) == Reverse(engine.lifecycles);
    }
    r := Ok(failed);
  }
}
