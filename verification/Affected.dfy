/** Which workspace packages a change affects: the touched ones and everything that depends on them. */
module Affected {
  import opened Wrappers
  import opened Ordering

  type Scope = Option<map<string, string>>

  datatype Manifest = Manifest(scripts: Scope, dependencies: Scope, devDependencies: Scope,
                               peerDependencies: Scope, optionalDependencies: Scope)

  datatype Package = Package(name: string, dir: string, manifest: Manifest)

  // ---------------------------------------------------------------------------------------------
  // Dependency edges

  /** An entry of a manifest; a missing entry counts as an empty one. */
  function Entry(scope: Scope, key: string): string {
    if scope.Some? && key in scope.value then scope.value[key] else ""
  }

  const WORKSPACE := "workspace:"

  predicate NeedsIn(scope: Scope, dependency: string, known: bool) {
    Entry(scope, dependency) != "" && (WORKSPACE <= Entry(scope, dependency) || known)
  }

  predicate DependsOn(m: Manifest, dependency: string, known: bool) {
    || NeedsIn(m.dependencies, dependency, known)
    || NeedsIn(m.devDependencies, dependency, known)
    || NeedsIn(m.peerDependencies, dependency, known)
    || NeedsIn(m.optionalDependencies, dependency, known)
  }

  predicate IsKnown(packages: seq<Package>, name: string) {
    exists p | p in packages :: p.name == name
  }

  predicate Edge(packages: seq<Package>, p: Package, dependency: string) {
    DependsOn(p.manifest, dependency, IsKnown(packages, dependency))
  }

  /** A table of dependencies gives the package a version. */
  predicate HasVersion(scope: Scope, name: string, version: string) {
    scope.Some? && name in scope.value && scope.value[name] == version && version != ""
  }

  /** A package depends on another one exactly if one of its four tables of dependencies gives it a
      version, and that is one of the workspace or the other is a package of the workspace. */
  lemma EdgeIff(packages: seq<Package>, p: Package, name: string)
    ensures Edge(packages, p, name)
            <==> exists version: string ::
                   && (|| HasVersion(p.manifest.dependencies, name, version)
                       || HasVersion(p.manifest.devDependencies, name, version)
                       || HasVersion(p.manifest.peerDependencies, name, version)
                       || HasVersion(p.manifest.optionalDependencies, name, version))
                   && ("workspace:" <= version || exists q | q in packages :: q.name == name)
  {
    forall scope: Scope, known: bool
      ensures NeedsIn(scope, name, known)
              <==> exists version: string :: HasVersion(scope, name, version) && ("workspace:" <= version || known)
    {
      if NeedsIn(scope, name, known) {
        assert HasVersion(scope, name, Entry(scope, name));
      }
    }
  }

  type Relation = (Package, string) -> bool

  function EdgesOf(packages: seq<Package>): Relation {
    (p: Package, dependency: string) => Edge(packages, p, dependency)
  }

  /** A dependency path from a touched package; a package without a name leads nowhere. */
  ghost predicate Chain(edge: Relation, packages: seq<Package>, touched: seq<Package>, chain: seq<Package>) {
    if |chain| <= 1 then chain != [] && chain[0] in touched
    else
      var n := |chain| - 1;
      && Chain(edge, packages, touched, chain[..n])
      && chain[n - 1].name != "" && chain[n] in packages && edge(chain[n], chain[n - 1].name)
  }

  ghost predicate Reached(edge: Relation, packages: seq<Package>, touched: seq<Package>, name: string) {
    exists chain: seq<Package> :: Chain(edge, packages, touched, chain) && chain[|chain| - 1].name == name
  }

  // ---------------------------------------------------------------------------------------------
  // Touched packages

  predicate IsUnder(path: string, dir: string) {
    path == dir || dir + "/" <= path
  }

  /** The path is the directory, or goes on behind it with a slash. */
  lemma IsUnderIff(path: string, dir: string)
    ensures IsUnder(path, dir)
            <==> |path| >= |dir| && path[..|dir|] == dir && (|path| == |dir| || path[|dir|] == '/')
  {
    assert dir + "/" <= path ==> path[..|dir| + 1] == dir + "/" && path[..|dir|] == path[..|dir| + 1][..|dir|];
    if |path| > |dir| && path[..|dir|] == dir && path[|dir|] == '/' {
      assert path[..|dir| + 1] == dir + "/";
    }
    assert |path| == |dir| ==> path[..|dir|] == path;
  }

  function FindTouched(paths: seq<string>, packages: seq<Package>): (touched: seq<Package>)
    ensures forall p :: p in touched <==> p in packages && exists path | path in paths :: IsUnder(path, p.dir)
  {
    if packages == [] then []
    else (if exists path | path in paths :: IsUnder(path, packages[0].dir) then [packages[0]] else [])
         + FindTouched(paths, packages[1..])
  }

  // ---------------------------------------------------------------------------------------------
  // A map that keeps the order of insertion, keyed by the names of its values

  predicate Has(selected: seq<Package>, name: string) {
    exists p | p in selected :: p.name == name
  }

  lemma HasCons(p: Package, rest: seq<Package>)
    ensures forall n :: Has([p] + rest, n) <==> p.name == n || Has(rest, n)
  {
    assert forall q :: q in [p] + rest <==> q == p || q in rest;
  }

  function Set(selected: seq<Package>, p: Package): (more: seq<Package>)
    ensures forall n :: Has(more, n) <==> Has(selected, n) || n == p.name
    ensures forall q | q in more :: q == p || q in selected
    ensures !Has(selected, p.name) ==> more == selected + [p]
  {
    if selected == [] then [p]
    else if selected[0].name == p.name then
      assert selected == [selected[0]] + selected[1..];
      HasCons(p, selected[1..]);
      HasCons(selected[0], selected[1..]);
      [p] + selected[1..]
    else
      var rest := Set(selected[1..], p);
      assert selected == [selected[0]] + selected[1..];
      HasCons(selected[0], rest);
      HasCons(selected[0], selected[1..]);
      [selected[0]] + rest
  }

  predicate DistinctNames(packages: seq<Package>) {
    forall i, j | 0 <= i < j < |packages| :: packages[i].name != packages[j].name
  }

  lemma DistinctTail(selected: seq<Package>)
    requires DistinctNames(selected) && selected != []
    ensures DistinctNames(selected[1..]) && forall q | q in selected[1..] :: q.name != selected[0].name
  {
    forall q | q in selected[1..] ensures q.name != selected[0].name {
      var k :| 0 <= k < |selected[1..]| && selected[1..][k] == q;
      assert selected[k + 1] == q;
    }
  }

  lemma DistinctCons(p: Package, rest: seq<Package>)
    requires DistinctNames(rest) && forall q | q in rest :: q.name != p.name
    ensures DistinctNames([p] + rest)
  {
    assert forall i | 0 <= i < |rest| :: rest[i] in rest;
  }

  lemma {:induction false} SetKeepsDistinct(selected: seq<Package>, p: Package)
    requires DistinctNames(selected)
    ensures DistinctNames(Set(selected, p))
  {
    if selected != [] {
      DistinctTail(selected);
      if selected[0].name == p.name {
        DistinctCons(p, selected[1..]);
      } else {
        SetKeepsDistinct(selected[1..], p);
        DistinctCons(selected[0], Set(selected[1..], p));
      }
    }
  }

  // ---------------------------------------------------------------------------------------------
  // The closure

  lemma ReachedStep(edge: Relation, packages: seq<Package>, touched: seq<Package>, name: string, p: Package)
    requires Reached(edge, packages, touched, name) && name != "" && p in packages && edge(p, name)
    ensures Reached(edge, packages, touched, p.name)
  {
    var chain: seq<Package> :| Chain(edge, packages, touched, chain) && chain[|chain| - 1].name == name;
    var longer := chain + [p];
    assert longer[..|chain|] == chain;
    assert Chain(edge, packages, touched, longer) && longer[|longer| - 1] == p;
  }

  lemma TouchedReached(edge: Relation, packages: seq<Package>, touched: seq<Package>, p: Package)
    requires p in touched
    ensures Reached(edge, packages, touched, p.name)
  {
    assert Chain(edge, packages, touched, [p]) && [p][|[p]| - 1] == p;
  }

  /** All packages that depend on `name` are selected. */
  ghost predicate Expanded(edge: Relation, packages: seq<Package>, selected: seq<Package>, name: string) {
    forall p | p in packages && edge(p, name) :: Has(selected, p.name)
  }

  /** Selected are only affected packages, each name once. */
  ghost predicate Sound(edge: Relation, packages: seq<Package>, touched: seq<Package>, selected: seq<Package>) {
    DistinctNames(selected) && forall p | p in selected :: p in packages && Reached(edge, packages, touched, p.name)
  }

  /** Queued names are selected, and only queued ones may have dependents that are not. */
  ghost predicate Queued(edge: Relation, packages: seq<Package>, selected: seq<Package>, queue: seq<string>) {
    && (forall n | n in queue :: Has(selected, n))
    && (forall n | Has(selected, n) && n !in queue && n != "" :: Expanded(edge, packages, selected, n))
  }

  ghost predicate Inv(edge: Relation, packages: seq<Package>, touched: seq<Package>,
                      selected: seq<Package>, queue: seq<string>) {
    && Sound(edge, packages, touched, selected) && Queued(edge, packages, selected, queue)
    && forall p | p in touched :: Has(selected, p.name)
  }

  lemma {:induction false} ChainSelected(edge: Relation, packages: seq<Package>, touched: seq<Package>,
                                         selected: seq<Package>, chain: seq<Package>)
    requires Inv(edge, packages, touched, selected, []) && Chain(edge, packages, touched, chain)
    ensures Has(selected, chain[|chain| - 1].name)
    decreases |chain|
  {
    if |chain| > 1 {
      var n := |chain| - 1;
      assert Chain(edge, packages, touched, chain[..n]);
      ChainSelected(edge, packages, touched, selected, chain[..n]);
      assert Expanded(edge, packages, selected, chain[n - 1].name);
    }
  }

  function Names(packages: seq<Package>): set<string> {
    set p | p in packages :: p.name
  }

  /** `new Map(touched.map(...))` and the names of the touched packages. */
  method Start(ghost edge: Relation, packages: seq<Package>, touched: seq<Package>)
    returns (selected: seq<Package>, queue: seq<string>)
    requires forall p | p in touched :: p in packages
    ensures Inv(edge, packages, touched, selected, queue)
  {
    selected, queue := [], [];
    for i := 0 to |touched|
      invariant DistinctNames(selected) && forall p | p in selected :: p in touched[..i]
      invariant forall p | p in touched[..i] :: Has(selected, p.name)
      invariant forall n :: n in queue <==> Has(touched[..i], n)
      invariant forall n | Has(selected, n) :: n in queue
    {
      assert touched[..i + 1] == touched[..i] + [touched[i]];
      SetKeepsDistinct(selected, touched[i]);
      selected := Set(selected, touched[i]);
      queue := queue + [touched[i].name];
    }
    assert touched[..|touched|] == touched;
    forall p | p in selected ensures Reached(edge, packages, touched, p.name) {
      TouchedReached(edge, packages, touched, p);
    }
  }

  /** Newly selected names are queued. */
  ghost predicate Grown(selected: seq<Package>, queue: seq<string>, more: seq<Package>, waiting: seq<string>) {
    && (forall n | Has(selected, n) :: Has(more, n))
    && (forall n | n in waiting :: Has(more, n))
    && (forall n | n in queue :: n in waiting)
    && (forall n | Has(more, n) :: n in waiting || Has(selected, n))
  }

  ghost predicate Progress(packages: seq<Package>, selected: seq<Package>, queue: seq<string>,
                           more: seq<Package>, waiting: seq<string>) {
    (more == selected && waiting == queue) || Names(packages) - Names(more) < Names(packages) - Names(selected)
  }

  lemma GrownSelects(packages: seq<Package>, selected: seq<Package>, queue: seq<string>,
                     more: seq<Package>, waiting: seq<string>, p: Package)
    requires Grown(selected, queue, more, waiting) && Progress(packages, selected, queue, more, waiting)
    requires p in packages && !Has(more, p.name) && DistinctNames(more)
    ensures var m, w := more + [p], waiting + [p.name];
            && Set(more, p) == m && DistinctNames(m)
            && Grown(selected, queue, m, w) && Progress(packages, selected, queue, m, w)
  {
    SetKeepsDistinct(more, p);
    var m, w := more + [p], waiting + [p.name];
    assert p.name in Names(packages) && p.name !in Names(more) && p.name in Names(m);
    assert forall n :: Has(m, n) <==> Has(more, n) || n == p.name;
  }

  lemma GrownKeeps(edge: Relation, packages: seq<Package>, selected: seq<Package>, current: string, queue: seq<string>,
                   more: seq<Package>, waiting: seq<string>)
    requires Queued(edge, packages, selected, [current] + queue) && Grown(selected, queue, more, waiting)
    requires current == "" || Expanded(edge, packages, more, current)
    ensures Queued(edge, packages, more, waiting)
  {
    forall n | Has(more, n) && n !in waiting && n != "" ensures Expanded(edge, packages, more, n) {
      if n != current {
        assert Has(selected, n) && n !in [current] + queue;
        assert Expanded(edge, packages, selected, n);
      }
    }
  }

  /** The first `i` candidates have been looked at. */
  ghost predicate Looked(edge: Relation, packages: seq<Package>, touched: seq<Package>, selected: seq<Package>,
                         current: string, queue: seq<string>, more: seq<Package>, waiting: seq<string>, i: nat)
  {
    && i <= |packages| && Sound(edge, packages, touched, more)
    && Grown(selected, queue, more, waiting) && Progress(packages, selected, queue, more, waiting)
    && forall k | 0 <= k < i && edge(packages[k], current) :: Has(more, packages[k].name)
  }

  lemma LookedSelects(edge: Relation, packages: seq<Package>, touched: seq<Package>, selected: seq<Package>,
                      current: string, queue: seq<string>, more: seq<Package>, waiting: seq<string>, i: nat)
    requires i < |packages| && Looked(edge, packages, touched, selected, current, queue, more, waiting, i)
    requires Reached(edge, packages, touched, current) && current != ""
    requires !Has(more, packages[i].name) && edge(packages[i], current)
    ensures Set(more, packages[i]) == more + [packages[i]]
    ensures Looked(edge, packages, touched, selected, current, queue,
                   more + [packages[i]], waiting + [packages[i].name], i + 1)
  {
    var p := packages[i];
    ReachedStep(edge, packages, touched, current, p);
    GrownSelects(packages, selected, queue, more, waiting, p);
    forall n | Has(more, n) || n == p.name ensures Has(more + [p], n) {
      if n == p.name {
        assert p in more + [p];
      }
    }
  }

  lemma LookedSkips(edge: Relation, packages: seq<Package>, touched: seq<Package>, selected: seq<Package>,
                    current: string, queue: seq<string>, more: seq<Package>, waiting: seq<string>, i: nat)
    requires i < |packages| && Looked(edge, packages, touched, selected, current, queue, more, waiting, i)
    requires Has(more, packages[i].name) || !edge(packages[i], current)
    ensures Looked(edge, packages, touched, selected, current, queue, more, waiting, i + 1)
  {
  }

  lemma LookedAll(edge: Relation, packages: seq<Package>, touched: seq<Package>, selected: seq<Package>,
                  current: string, queue: seq<string>, more: seq<Package>, waiting: seq<string>)
    requires Inv(edge, packages, touched, selected, [current] + queue)
    requires Looked(edge, packages, touched, selected, current, queue, more, waiting, |packages|)
    ensures Inv(edge, packages, touched, more, waiting)
  {
    assert Expanded(edge, packages, more, current);
    GrownKeeps(edge, packages, selected, current, queue, more, waiting);
  }

  lemma LookedNone(edge: Relation, packages: seq<Package>, touched: seq<Package>, selected: seq<Package>,
                   current: string, queue: seq<string>)
    requires Inv(edge, packages, touched, selected, [current] + queue)
    ensures Looked(edge, packages, touched, selected, current, queue, selected, queue, 0)
    ensures Reached(edge, packages, touched, current)
    ensures current == "" ==> Inv(edge, packages, touched, selected, queue)
  {
    assert current in [current] + queue && Has(selected, current);
    assert forall n | n in queue :: n in [current] + queue;
    if current == "" {
      GrownKeeps(edge, packages, selected, current, queue, selected, queue);
    }
  }

  lemma FirstOfQueue(edge: Relation, packages: seq<Package>, touched: seq<Package>, selected: seq<Package>,
                     names: seq<string>, current: string, queue: seq<string>)
    requires Inv(edge, packages, touched, selected, names)
    requires names != [] && current == names[0] && queue == names[1..]
    ensures Inv(edge, packages, touched, selected, [current] + queue)
  {
    assert [current] + queue == names;
  }

  /** One name is taken from the queue: its dependents are selected and queued. */
  method AddDependents(edge: Relation, packages: seq<Package>, ghost touched: seq<Package>,
                       selected: seq<Package>, names: seq<string>)
    returns (more: seq<Package>, waiting: seq<string>)
    requires names != [] && Inv(edge, packages, touched, selected, names)
    ensures Inv(edge, packages, touched, more, waiting)
    ensures Progress(packages, selected, names[1..], more, waiting)
  {
    var current, queue := names[0], names[1..];
    more, waiting := selected, queue;
    FirstOfQueue(edge, packages, touched, selected, names, current, queue);
    LookedNone(edge, packages, touched, selected, current, queue);
    if current == "" {
      return;
    }
    for i := 0 to |packages|
      invariant Looked(edge, packages, touched, selected, current, queue, more, waiting, i)
    {
      var candidate := packages[i];
      if !Has(more, candidate.name) && edge(candidate, current) {
        LookedSelects(edge, packages, touched, selected, current, queue, more, waiting, i);
        more := Set(more, candidate);
        waiting := waiting + [candidate.name];
      } else {
        LookedSkips(edge, packages, touched, selected, current, queue, more, waiting, i);
      }
    }
    LookedAll(edge, packages, touched, selected, current, queue, more, waiting);
  }

  lemma InvGivesClosure(edge: Relation, packages: seq<Package>, touched: seq<Package>, selected: seq<Package>)
    requires Inv(edge, packages, touched, selected, [])
    ensures forall n :: Has(selected, n) <==> Reached(edge, packages, touched, n)
  {
    forall n | Reached(edge, packages, touched, n) ensures Has(selected, n) {
      var chain: seq<Package> :| Chain(edge, packages, touched, chain) && chain[|chain| - 1].name == n;
      ChainSelected(edge, packages, touched, selected, chain);
    }
  }

  lemma {:induction false} InsertKeepsDistinct(p: Package, s: seq<Package>, le: (Package, Package) -> bool)
    requires DistinctNames(s) && forall q | q in s :: q.name != p.name
    ensures DistinctNames(Insert(p, s, le))
  {
    if s == [] || le(p, s[0]) {
      DistinctCons(p, s);
      assert [p] + [] == [p];
    } else {
      DistinctTail(s);
      InsertKeepsDistinct(p, s[1..], le);
      InsertMembers(p, s[1..], le);
      assert s[0] in s;
      DistinctCons(s[0], Insert(p, s[1..], le));
    }
  }

  lemma InsertMembers(p: Package, s: seq<Package>, le: (Package, Package) -> bool)
    ensures forall q :: q in Insert(p, s, le) <==> q == p || q in s
  {
    InsertKeeps(p, s, le);
    forall q ensures q in Insert(p, s, le) <==> q == p || q in s {
      assert q in Insert(p, s, le) <==> q in multiset(Insert(p, s, le));
      assert q in s <==> q in multiset(s);
    }
  }

  lemma {:induction false} SortKeepsDistinct(s: seq<Package>, le: (Package, Package) -> bool)
    requires DistinctNames(s)
    ensures DistinctNames(Sort(s, le))
  {
    if s != [] {
      DistinctTail(s);
      SortKeepsDistinct(s[1..], le);
      SortMembers(s[1..], le);
      InsertKeepsDistinct(s[0], Sort(s[1..], le), le);
    }
  }

  /** The worklist, run until nothing is queued. */
  method Close(edge: Relation, packages: seq<Package>, touched: seq<Package>) returns (selected: seq<Package>)
    requires forall p | p in touched :: p in packages
    ensures Inv(edge, packages, touched, selected, [])
  {
    var queue;
    selected, queue := Start(edge, packages, touched);
    while queue != []
      invariant Inv(edge, packages, touched, selected, queue)
      decreases Names(packages) - Names(selected), |queue|
    {
      selected, queue := AddDependents(edge, packages, touched, selected, queue);
    }
  }

  lemma SortKeepsNames(selected: seq<Package>, dirLe: (Package, Package) -> bool)
    ensures forall n :: Has(Sort(selected, dirLe), n) <==> Has(selected, n)
  {
    SortMembers(selected, dirLe);
  }

  /** The affected packages, for cyclic graphs too, sorted by directory. */
  method ExpandWithDependents(touched: seq<Package>, packages: seq<Package>, dirLe: (Package, Package) -> bool)
    returns (affected: seq<Package>)
    requires forall p | p in touched :: p in packages
    ensures forall n :: Has(affected, n) <==> Reached(EdgesOf(packages), packages, touched, n)
    ensures DistinctNames(affected) && forall p | p in affected :: p in packages
    ensures TotalPreorder(dirLe) ==> SortedBy(affected, dirLe)
  {
    var selected := Close(EdgesOf(packages), packages, touched);
    InvGivesClosure(EdgesOf(packages), packages, touched, selected);
    affected := Sort(selected, dirLe);
    SortMembers(selected, dirLe);
    SortKeepsNames(selected, dirLe);
    SortKeepsDistinct(selected, dirLe);
    if TotalPreorder(dirLe) {
      SortSorts(selected, dirLe);
    }
  }
}
