/** Selection of continuous-integration work from changed files: which module owns a path, which
    modules depend on the changed ones, and which modules are tested. */
module ChangeImpact {
  import opened Results
  import opened Sequences
  import opened Texts

  type Name = string

  type Graph = map<Name, set<Name>>

  // ----- path ownership

  predicate StartsWith(path: string, prefix: string) {
    prefix <= path
  }

  predicate Owns(m: Name, path: string) {
    path == m || m + "/" <= path
  }

  /** The first listed module that owns the path. */
  method ModuleFromPath(path: string, modules: seq<Name>) returns (owner: Option<Name>)
    ensures owner == Owner(path, modules)
    ensures owner.Some? ==> owner.value in modules && Owns(owner.value, path)
    ensures owner.None? ==> forall m :: m in modules ==> !Owns(m, path)
  {
    for i := 0 to |modules|
      invariant forall k :: 0 <= k < i ==> !Owns(modules[k], path)
      invariant Owner(path, modules) == Owner(path, modules[i..])
    {
      assert modules[i..][0] == modules[i] && modules[i..][1..] == modules[i + 1..];
      if path == modules[i] || StartsWith(path, modules[i] + "/") {
        return Some(modules[i]);
      }
    }
    assert modules[|modules|..] == [];
    owner := None;
  }

  function Owner(path: string, modules: seq<Name>): Option<Name> {
    if modules == [] then None
    else if Owns(modules[0], path) then Some(modules[0])
    else Owner(path, modules[1..])
  }

  /** No listed name owns another one. */
  ghost predicate AreApart(modules: seq<Name>) {
    forall m, n :: m in modules && n in modules && Owns(m, n) ==> m == n
  }

  /** Of two owners of a path the shorter one owns the longer one. */
  lemma OwnersAreNested(path: string, m: Name, n: Name)
    requires Owns(m, path) && Owns(n, path)
    ensures Owns(m, n) || Owns(n, m)
  {
    var short, long := if |m| <= |n| then m else n, if |m| <= |n| then n else m;
    assert path[..|short|] == short && path[..|long|] == long;
    if |short| < |long| {
      assert path[|short|] == (short + "/")[|short|] == '/';
      assert long[..|short| + 1] == short + "/";
    }
  }

  lemma {:induction false} OwnerIsFound(path: string, modules: seq<Name>, m: Name)
    requires AreApart(modules)
    ensures Owner(path, modules) == Some(m) <==> m in modules && Owns(m, path)
  {
    if modules == [] {
    } else {
      assert modules == [modules[0]] + modules[1..];
      OwnerIsFound(path, modules[1..], m);
      if Owns(modules[0], path) && m in modules && Owns(m, path) {
        OwnersAreNested(path, modules[0], m);
      }
    }
  }

  ghost predicate AreSameNames(modules: seq<Name>, others: seq<Name>) {
    forall x :: x in modules <==> x in others
  }

  ghost predicate OwnAlike(modules: seq<Name>, others: seq<Name>) {
    forall path :: Owner(path, modules) == Owner(path, others)
  }

  /** The owner of every path is the same in every order of the names exactly if no name owns another. */
  lemma OwnerIsOrderFree(modules: seq<Name>)
    ensures (forall others :: AreSameNames(modules, others) ==> OwnAlike(modules, others)) <==> AreApart(modules)
  {
    if AreApart(modules) {
      forall path, others | AreSameNames(modules, others) ensures Owner(path, modules) == Owner(path, others) {
        SameOwner(path, modules, others);
      }
    } else {
      var m, n :| m in modules && n in modules && Owns(m, n) && m != n;
      var first, second := [m] + modules, [n] + modules;
      assert AreSameNames(modules, first) && AreSameNames(modules, second);
      assert Owner(n, first) == Some(m) && Owner(n, second) == Some(n);
      assert !OwnAlike(modules, first) || !OwnAlike(modules, second);
    }
  }

  lemma SameOwner(path: string, modules: seq<Name>, others: seq<Name>)
    requires AreSameNames(modules, others) && AreApart(modules)
    ensures Owner(path, modules) == Owner(path, others)
  {
    match Owner(path, modules)
    case Some(m) =>
      OwnerIsFound(path, modules, m);
      OwnerIsFound(path, others, m);
    case None =>
      match Owner(path, others)
      case Some(m) =>
        OwnerIsFound(path, modules, m);
        OwnerIsFound(path, others, m);
      case None =>
  }

  /** Names without a slash, such as those of directories, are apart. */
  lemma SlashFreeNamesAreApart(modules: seq<Name>)
    requires forall m :: m in modules ==> IsSlashFree(m)
    ensures AreApart(modules)
  {
    forall m, n | m in modules && n in modules && Owns(m, n) ensures m == n {
      assert m + "/" <= n ==> !IsSlashFree(n) by { PrefixHasSlash(m, n); }
    }
  }

  lemma PrefixHasSlash(m: Name, n: Name)
    ensures m + "/" <= n ==> !IsSlashFree(n)
  {
    if m + "/" <= n {
      assert n[|m|] == (m + "/")[|m|];
    }
  }

  // ----- reverse dependencies

  function Dependents(g: Graph, v: Name): set<Name> {
    if v in g then g[v] else {}
  }

  /** The modules that name each module among their dependencies. */
  method BuildReverseGraph(modules: seq<Name>, dependencies: map<Name, seq<Name>>) returns (reverse: Graph)
    ensures reverse.Keys == set m | m in modules
    ensures forall d, m :: m in Dependents(reverse, d) <==>
      d in modules && m in modules && m in dependencies && d in dependencies[m]
  {
    reverse := map[];
    for i := 0 to |modules|
      invariant forall d :: d in reverse ==> d in modules
      invariant forall d, m :: m in Dependents(reverse, d) <==>
        d in modules && m in modules[..i] && m in dependencies && d in dependencies[m]
    {
      var module_ := modules[i];
      var deps := if module_ in dependencies then dependencies[module_] else [];
      ghost var before := reverse;
      for j := 0 to |deps|
        invariant forall d :: d in reverse ==> d in modules
        invariant forall d, m :: m in Dependents(reverse, d) <==>
          m in Dependents(before, d) || (d in modules && m == module_ && d in deps[..j])
      {
        if deps[j] in modules {
          reverse := reverse[deps[j] := Dependents(reverse, deps[j]) + {module_}];
        }
      }
    }
    for i := 0 to |modules|
      invariant forall d :: d in reverse ==> d in modules
      invariant forall k :: 0 <= k < i ==> modules[k] in reverse
      invariant forall d, m :: m in Dependents(reverse, d) <==>
        d in modules && m in modules && m in dependencies && d in dependencies[m]
    {
      if modules[i] !in reverse {
        reverse := reverse[modules[i] := {}];
      }
    }
  }

  // ----- the downstream closure

  ghost predicate IsClosed(g: Graph, s: set<Name>) {
    forall v :: v in s ==> Dependents(g, v) <= s
  }

  /** The least set that contains the changed modules and every dependent of its members. */
  ghost predicate IsLeastClosed(g: Graph, changed: set<Name>, s: set<Name>) {
    && changed <= s && IsClosed(g, s)
    && forall t :: changed <= t && IsClosed(g, t) ==> s <= t
  }

  ghost predicate IsChain(g: Graph, p: seq<Name>) {
    forall i :: 0 <= i < |p| - 1 ==> p[i + 1] in Dependents(g, p[i])
  }

  ghost predicate IsReached(g: Graph, changed: set<Name>, v: Name) {
    exists p :: p != [] && p[0] in changed && p[|p| - 1] == v && IsChain(g, p)
  }

  lemma {:induction false} ClosedSetHoldsChains(g: Graph, s: set<Name>, p: seq<Name>)
    requires IsClosed(g, s) && p != [] && p[0] in s && IsChain(g, p)
    ensures p[|p| - 1] in s
    decreases |p|
  {
    if |p| > 1 {
      var q := p[..|p| - 1];
      ClosedSetHoldsChains(g, s, q);
      assert p[|p| - 1] in Dependents(g, p[|p| - 2]);
      assert q[|q| - 1] == p[|p| - 2];
    }
  }

  lemma ReachedGoesOn(g: Graph, changed: set<Name>, x: Name, y: Name)
    requires IsReached(g, changed, x) && y in Dependents(g, x)
    ensures IsReached(g, changed, y)
  {
    var p :| p != [] && p[0] in changed && p[|p| - 1] == x && IsChain(g, p);
    var q := p + [y];
    assert q != [] && q[0] in changed && q[|q| - 1] == y && IsChain(g, q);
  }

  lemma ChangedIsReached(g: Graph, changed: set<Name>, x: Name)
    requires x in changed
    ensures IsReached(g, changed, x)
  {
    var p := [x];
    assert p != [] && p[0] in changed && p[|p| - 1] == x && IsChain(g, p);
  }

  /** The least closed set is what chains of dependents reach. */
  lemma LeastClosedIsReached(g: Graph, changed: set<Name>, s: set<Name>, v: Name)
    requires IsLeastClosed(g, changed, s)
    ensures v in s <==> IsReached(g, changed, v)
  {
    if IsReached(g, changed, v) {
      var p :| p != [] && p[0] in changed && p[|p| - 1] == v && IsChain(g, p);
      ClosedSetHoldsChains(g, s, p);
    }
    var reached := set x | x in s && IsReached(g, changed, x);
    forall x | x in changed ensures x in reached {
      ChangedIsReached(g, changed, x);
    }
    forall x | x in reached ensures Dependents(g, x) <= reached {
      forall y | y in Dependents(g, x) ensures y in reached {
        ReachedGoesOn(g, changed, x, y);
      }
    }
    assert IsClosed(g, reached);
  }

  /** Breadth-first closure. The second result is the order in which modules left the queue. */
  method DownstreamClosure(changed: set<Name>, g: Graph) returns (impacted: set<Name>, order: seq<Name>)
    ensures IsLeastClosed(g, changed, impacted)
    ensures HasNoRepeats(order) && forall x :: x in order <==> x in impacted
  {
    impacted := changed;
    order := [];
    var queue := Enumerate(changed);
    assert order + queue == queue;
    while queue != []
      invariant HasNoRepeats(order + queue)
      invariant forall x :: x in order + queue <==> x in impacted
      invariant forall v :: v in order ==> Dependents(g, v) <= impacted
      invariant changed <= impacted && impacted <= Universe(g, changed)
      invariant forall t :: changed <= t && IsClosed(g, t) ==> impacted <= t
      decreases Universe(g, changed) - Elements(order)
    {
      var node := queue[0];
      assert node in order + queue;
      MoveHead(order, queue);
      order, queue := order + [node], queue[1..];
      impacted, queue := Spread(g, changed, node, order, queue, impacted);
    }
    assert order + [] == order;
  }

  ghost function Universe(g: Graph, changed: set<Name>): set<Name> {
    changed + set v, w | v in g && w in g[v] :: w
  }

  lemma MoveHead(order: seq<Name>, queue: seq<Name>)
    requires queue != [] && HasNoRepeats(order + queue)
    ensures order + [queue[0]] + queue[1..] == order + queue
    ensures queue[0] !in order
    ensures Elements(order) + {queue[0]} == Elements(order + [queue[0]])
  {
    assert order + [queue[0]] + queue[1..] == order + queue;
    forall i | 0 <= i < |order| ensures order[i] != queue[0] {
      assert (order + queue)[i] != (order + queue)[|order|];
    }
  }

  /** One turn of the queue: the unseen dependents of a module join the set and the queue. */
  method Spread(g: Graph, ghost changed: set<Name>, node: Name, ghost order: seq<Name>, queue: seq<Name>,
                impacted: set<Name>)
    returns (grown: set<Name>, longer: seq<Name>)
    requires HasNoRepeats(order + queue) && node in order
    requires forall x :: x in order + queue <==> x in impacted
    ensures HasNoRepeats(order + longer)
    ensures forall x :: x in order + longer <==> x in grown
    ensures grown == impacted + Dependents(g, node)
  {
    grown, longer := impacted, queue;
    var children := Enumerate(Dependents(g, node));
    for i := 0 to |children|
      invariant HasNoRepeats(order + longer)
      invariant forall x :: x in order + longer <==> x in grown
      invariant grown == impacted + Elements(children[..i])
    {
      assert Elements(children[..i + 1]) == Elements(children[..i]) + {children[i]};
      if children[i] !in grown {
        assert children[i] !in order + longer;
        assert order + (longer + [children[i]]) == (order + longer) + [children[i]];
        grown, longer := grown + {children[i]}, longer + [children[i]];
      }
    }
    assert children[..|children|] == children;
    assert Elements(children) == Dependents(g, node);
  }

  // ----- the selection

  datatype Catalog = Catalog(
    sharedPrefixes: seq<string>,
    sharedFiles: seq<string>,
    coreModules: seq<Name>,
    alwaysTestModules: seq<Name>,
    migrationModules: seq<Name>)

  datatype Selection = Selection(
    sharedChange: bool,
    changedModules: set<Name>,
    impactedModules: set<Name>,
    testModules: set<Name>,
    migrationModules: set<Name>)

  ghost predicate IsSharedPath(path: string, catalog: Catalog) {
    path in catalog.sharedFiles || exists p :: p in catalog.sharedPrefixes && p <= path
  }

  method HasSharedChange(files: seq<string>, catalog: Catalog) returns (shared: bool)
    ensures shared <==> exists f :: f in files && IsSharedPath(f, catalog)
  {
    for i := 0 to |files|
      invariant forall k :: 0 <= k < i ==> !IsSharedPath(files[k], catalog)
    {
      if files[i] in catalog.sharedFiles {
        assert IsSharedPath(files[i], catalog);
        return true;
      }
      if exists p :: p in catalog.sharedPrefixes && StartsWith(files[i], p) {
        assert IsSharedPath(files[i], catalog);
        return true;
      }
    }
    shared := false;
  }

  function CatalogModules(listed: seq<Name>, modules: seq<Name>): set<Name> {
    set m | m in listed && m in modules
  }

  /** What the changed files select, without saying how it is computed. */
  ghost predicate IsSelection(catalog: Catalog, modules: seq<Name>, g: Graph, files: seq<string>, r: Selection) {
    var core := set m | m in catalog.coreModules && m in modules;
    && (r.sharedChange <==> exists f :: f in files && IsSharedPath(f, catalog))
    && (forall m :: m in r.changedModules <==> exists f :: f in files && Owner(f, modules) == Some(m))
    && (if r.sharedChange then r.impactedModules == Elements(modules)
        else if r.changedModules == {} then r.impactedModules == core
        else IsLeastClosed(g, r.changedModules, r.impactedModules))
    && r.testModules == r.impactedModules + core + (set m | m in catalog.alwaysTestModules && m in modules)
    && r.migrationModules == set m | m in catalog.migrationModules && m in modules && m in r.impactedModules
  }

  method BuildResult(catalog: Catalog, modules: seq<Name>, dependencies: map<Name, seq<Name>>, files: seq<string>)
    returns (r: Selection, reverse: Graph)
    ensures IsReverseGraph(modules, dependencies, reverse)
    ensures IsSelection(catalog, modules, reverse, files, r)
  {
    var changed := ChangedModules(files, modules);
    reverse := BuildReverseGraph(modules, dependencies);
    var impacted, order := DownstreamClosure(changed, reverse);
    var shared := HasSharedChange(files, catalog);
    var core := CatalogModules(catalog.coreModules, modules);
    if shared {
      impacted := set m | m in modules;
    }
    if changed == {} && files != [] && !shared {
      EmptyClosure(reverse);
      impacted := impacted + core;
    }
    if files == [] {
      EmptyClosure(reverse);
      impacted := impacted + core;
    }
    var test := impacted + core + CatalogModules(catalog.alwaysTestModules, modules);
    r := Selection(shared, changed, impacted, test, CatalogModules(catalog.migrationModules, modules) * impacted);
  }

  ghost predicate IsReverseGraph(modules: seq<Name>, dependencies: map<Name, seq<Name>>, reverse: Graph) {
    forall d, m :: m in Dependents(reverse, d) <==>
      d in modules && m in modules && m in dependencies && d in dependencies[m]
  }

  method ChangedModules(files: seq<string>, modules: seq<Name>) returns (changed: set<Name>)
    ensures forall m :: m in changed <==> exists f :: f in files && Owner(f, modules) == Some(m)
  {
    changed := {};
    for i := 0 to |files|
      invariant forall m :: m in changed <==> exists f :: f in files[..i] && Owner(f, modules) == Some(m)
    {
      var owner := ModuleFromPath(files[i], modules);
      assert files[..i + 1] == files[..i] + [files[i]];
      if owner.Some? {
        changed := changed + {owner.value};
      }
    }
    assert files[..|files|] == files;
  }

  lemma EmptyClosure(g: Graph)
    ensures IsLeastClosed(g, {}, {})
    ensures forall s :: IsLeastClosed(g, {}, s) ==> s == {}
  {
    assert IsClosed(g, {});
  }

  // ----- what a selection promises

  lemma {:induction false} OwnerIsListed(path: string, modules: seq<Name>)
    ensures Owner(path, modules).Some? ==> Owner(path, modules).value in modules
  {
    if modules == [] {
    } else {
      OwnerIsListed(path, modules[1..]);
    }
  }

  lemma SelectionStaysInside(catalog: Catalog, modules: seq<Name>, dependencies: map<Name, seq<Name>>, g: Graph,
                             files: seq<string>, r: Selection)
    requires IsReverseGraph(modules, dependencies, g) && IsSelection(catalog, modules, g, files, r)
    ensures r.changedModules <= Elements(modules) && r.testModules <= Elements(modules)
  {
    forall m | m in r.changedModules ensures m in modules {
      var f :| f in files && Owner(f, modules) == Some(m);
      OwnerIsListed(f, modules);
    }
    assert IsClosed(g, Elements(modules));
  }

  /** Every transitive dependent of the owner of a changed file is tested. */
  lemma DependentsAreTested(catalog: Catalog, modules: seq<Name>, dependencies: map<Name, seq<Name>>, g: Graph,
                            files: seq<string>, r: Selection, file: string, chain: seq<Name>)
    requires IsReverseGraph(modules, dependencies, g) && IsSelection(catalog, modules, g, files, r)
    requires file in files && chain != [] && Owner(file, modules) == Some(chain[0]) && IsChain(g, chain)
    ensures chain[|chain| - 1] in r.testModules
  {
    assert chain[0] in r.changedModules;
    OwnerIsListed(file, modules);
    if r.sharedChange {
      assert IsClosed(g, Elements(modules));
      ClosedSetHoldsChains(g, Elements(modules), chain);
    } else {
      ClosedSetHoldsChains(g, r.impactedModules, chain);
    }
  }

  lemma MoreFilesChangeMore(catalog: Catalog, modules: seq<Name>, g: Graph, files: seq<string>, r: Selection,
                            more: seq<string>, q: Selection)
    requires IsSelection(catalog, modules, g, files, r) && IsSelection(catalog, modules, g, more, q)
    requires forall f :: f in files ==> f in more
    ensures r.changedModules <= q.changedModules && (r.sharedChange ==> q.sharedChange)
  {
    forall m | m in r.changedModules ensures m in q.changedModules {
      var f :| f in files && Owner(f, modules) == Some(m);
      assert f in more && Owner(f, modules) == Some(m);
    }
  }

  /** More changed files never test fewer modules. */
  lemma TestModulesAreMonotone(catalog: Catalog, modules: seq<Name>, dependencies: map<Name, seq<Name>>, g: Graph,
                               files: seq<string>, r: Selection, more: seq<string>, q: Selection)
    requires IsReverseGraph(modules, dependencies, g)
    requires IsSelection(catalog, modules, g, files, r) && IsSelection(catalog, modules, g, more, q)
    requires forall f :: f in files ==> f in more
    ensures r.testModules <= q.testModules
  {
    MoreFilesChangeMore(catalog, modules, g, files, r, more, q);
    SelectionStaysInside(catalog, modules, dependencies, g, files, r);
  }

  /** Some file is shared or has an owner; otherwise the core modules stand in. */
  ghost predicate Selects(catalog: Catalog, modules: seq<Name>, files: seq<string>) {
    exists f :: f in files && (IsSharedPath(f, catalog) || Owner(f, modules).Some?)
  }

  /** A chain of dependents leads from the owner of one of the files to the module. */
  ghost predicate IsDownstream(modules: seq<Name>, g: Graph, files: seq<string>, m: Name) {
    exists f, p :: f in files && p != [] && Owner(f, modules) == Some(p[0]) && p[|p| - 1] == m && IsChain(g, p)
  }

  /** The impacted modules grow with the files exactly if the smaller change selects something itself,
      or the larger one does not either, or it has a shared file, or every core module is downstream of
      one of its files. */
  lemma ImpactGrowsUnlessFallback(catalog: Catalog, modules: seq<Name>, dependencies: map<Name, seq<Name>>, g: Graph,
                                  files: seq<string>, r: Selection, more: seq<string>, q: Selection)
    requires IsReverseGraph(modules, dependencies, g)
    requires IsSelection(catalog, modules, g, files, r) && IsSelection(catalog, modules, g, more, q)
    requires forall f :: f in files ==> f in more
    ensures r.impactedModules <= q.impactedModules <==>
      || Selects(catalog, modules, files)
      || !Selects(catalog, modules, more)
      || (exists f :: f in more && IsSharedPath(f, catalog))
      || (forall m :: m in CatalogModules(catalog.coreModules, modules) ==> IsDownstream(modules, g, more, m))
  {
    MoreFilesChangeMore(catalog, modules, g, files, r, more, q);
    SelectionStaysInside(catalog, modules, dependencies, g, files, r);
    SelectsMeans(catalog, modules, g, files, r);
    SelectsMeans(catalog, modules, g, more, q);
    if !q.sharedChange && q.changedModules != {} {
      forall m ensures m in q.impactedModules <==> IsDownstream(modules, g, more, m) {
        ImpactIsDownstream(catalog, modules, g, more, q, m);
      }
    }
  }

  lemma SelectsMeans(catalog: Catalog, modules: seq<Name>, g: Graph, files: seq<string>, r: Selection)
    requires IsSelection(catalog, modules, g, files, r)
    ensures Selects(catalog, modules, files) <==> r.sharedChange || r.changedModules != {}
  {
    if f :| f in files && Owner(f, modules).Some? {
      assert Owner(f, modules).value in r.changedModules;
    }
    if m :| m in r.changedModules {
      var f :| f in files && Owner(f, modules) == Some(m);
      assert f in files && Owner(f, modules).Some?;
    }
  }

  lemma ImpactIsDownstream(catalog: Catalog, modules: seq<Name>, g: Graph, files: seq<string>, r: Selection, m: Name)
    requires IsSelection(catalog, modules, g, files, r) && !r.sharedChange && r.changedModules != {}
    ensures m in r.impactedModules <==> IsDownstream(modules, g, files, m)
  {
    LeastClosedIsReached(g, r.changedModules, r.impactedModules, m);
    if IsReached(g, r.changedModules, m) {
      var p :| p != [] && p[0] in r.changedModules && p[|p| - 1] == m && IsChain(g, p);
      var f :| f in files && Owner(f, modules) == Some(p[0]);
      assert f in files && p != [] && Owner(f, modules) == Some(p[0]) && p[|p| - 1] == m && IsChain(g, p);
    }
    if IsDownstream(modules, g, files, m) {
      var f, p :| f in files && p != [] && Owner(f, modules) == Some(p[0]) && p[|p| - 1] == m && IsChain(g, p);
      assert p != [] && p[0] in r.changedModules && p[|p| - 1] == m && IsChain(g, p);
    }
  }

  /** A file of module "a" added to an unowned one drops the core module "core" from the impact. */
  lemma ImpactCanShrink() returns (catalog: Catalog, modules: seq<Name>, g: Graph, r: Selection, q: Selection)
    ensures IsSelection(catalog, modules, g, ["README"], r)
    ensures IsSelection(catalog, modules, g, ["README", "a"], q)
    ensures "core" in r.impactedModules && "core" !in q.impactedModules
  {
    catalog := Catalog([], [], ["core"], [], []);
    modules, g := ["a", "core"], map["a" := {}, "core" := {}];
    assert modules[1..] == ["core"] && ["core"][1..] == [];
    assert CatalogModules(catalog.coreModules, modules) == {"core"};
    assert CatalogModules([], modules) == {};
    r := Selection(false, {}, {"core"}, {"core"}, {});
    q := Selection(false, {"a"}, {"a"}, {"a", "core"}, {});
    assert "a" + "/" == "a/" && "core" + "/" == "core/";
    assert "README"[0] == 'R' && "a/"[0] == 'a' && "core/"[0] == 'c';
    assert Owner("README", ["core"]) == Owner("README", []) == None;
    assert Owner("README", modules) == None;
    assert Owner("a", modules) == Some("a");
    assert "a" in ["README", "a"];
    assert IsLeastClosed(g, {"a"}, {"a"});
  }
}
