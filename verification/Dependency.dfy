/** The dependency resolver: a depth-first walk with visiting, visited and planned sets
    that reports unresolvable names and cycles and yields an install order. */
module Dependency {
  import opened Wrappers
  import opened RepoIndex

  /** normalizeDependencyName: the part before the first ':'. */
  function Normalize(name: string): (r: string)
    ensures ':' !in r && r <= name && (|r| < |name| ==> name[|r|] == ':')
    ensures ':' !in name ==> r == name
  {
    if name == "" || name[0] == ':' then "" else [name[0]] + Normalize(name[1..])
  }

  function Elems<T>(s: seq<T>): set<T> { set x | x in s }

  ghost predicate Distinct<T>(s: seq<T>) {
    forall i, j :: 0 <= i < j < |s| ==> s[i] != s[j]
  }

  lemma AppendFresh<T>(s: seq<T>, x: T)
    requires Distinct(s) && x !in s
    ensures Distinct(s + [x]) && Elems(s + [x]) == Elems(s) + {x}
  {
    assert forall y :: y in s + [x] <==> y in s || y == x;
  }

  /** The packages a resolver run sees: the merged list and its lookup maps. */
  datatype Repo = Repo(list: seq<PackageEntry>, maps: Maps) {

    ghost predicate Valid() {
      && maps.Find("").None?
      && forall name :: maps.Find(name).Some? ==>
                          maps.Find(name).value < |list| && list[maps.Find(name).value].packageName == name
    }

    function Get(name: string): (r: Option<PackageEntry>)
      requires Valid()
      ensures r.Some? ==> r.value.packageName == name && name != ""
    {
      match maps.Find(name)
      case None => None
      case Some(i) => Some(list[i])
    }

    lemma GetIsKnown(name: string)
      requires Valid() && Get(name).Some?
      ensures name in Known()
    {
    }

    function Known(): set<string> {
      maps.firstByName.Keys + maps.archByName.Keys + maps.allByName.Keys
    }

    /** Package a lists d, after normalisation, among its dependencies; self-dependencies
        and empty names are skipped. */
    ghost predicate Needs(a: string, d: string)
      requires Valid()
    {
      && Get(a).Some? && d != "" && d != a
      && exists k :: 0 <= k < |Get(a).value.depends| && Normalize(Get(a).value.depends[k]) == d
    }

    ghost predicate Edge(a: string, b: string)
      requires Valid()
    {
      Needs(a, b) && Get(b).Some?
    }

    ghost predicate Lacks(a: string, d: string)
      requires Valid()
    {
      Needs(a, d) && Get(d).None?
    }

    ghost predicate IsPath(p: seq<string>)
      requires Valid()
    {
      |p| > 0 && forall i :: 0 < i < |p| ==> Edge(p[i - 1], p[i])
    }

    ghost predicate PathFrom(p: seq<string>, a: string, b: string)
      requires Valid()
    {
      IsPath(p) && p[0] == a && p[|p| - 1] == b
    }

    ghost predicate Reach(a: string, b: string)
      requires Valid()
    {
      exists p :: PathFrom(p, a, b)
    }

    ghost predicate OnCycle(c: string)
      requires Valid()
    {
      exists p :: PathFrom(p, c, c) && |p| >= 2
    }

    ghost predicate CyclicFrom(root: string)
      requires Valid()
    {
      exists c :: Reach(root, c) && OnCycle(c)
    }

    /** Every dependency of an element that the repository knows stands before it. */
    ghost predicate Topological(s: seq<string>)
      requires Valid()
    {
      forall i, d :: 0 <= i < |s| && Edge(s[i], d) ==> d in s[..i]
    }

    ghost predicate Closed(s: set<string>)
      requires Valid()
    {
      forall a, b :: a in s && Edge(a, b) ==> b in s
    }
  }

  // ----- graph facts -----

  lemma {:induction false} ClosedHoldsPath(repo: Repo, s: set<string>, p: seq<string>)
    requires repo.Valid() && repo.Closed(s) && repo.IsPath(p) && p[0] in s
    ensures p[|p| - 1] in s
  {
    if |p| > 1 {
      var q := p[..|p| - 1];
      assert repo.IsPath(q);
      ClosedHoldsPath(repo, s, q);
      assert repo.Edge(p[|p| - 2], p[|p| - 1]);
    }
  }

  /** A closed set holding the root holds everything reachable from it. */
  lemma ClosedHoldsReach(repo: Repo, s: set<string>, a: string, b: string)
    requires repo.Valid() && repo.Closed(s) && a in s && repo.Reach(a, b)
    ensures b in s
  {
    var p :| repo.PathFrom(p, a, b);
    ClosedHoldsPath(repo, s, p);
  }

  lemma {:induction false} PathGoesBack(repo: Repo, s: seq<string>, p: seq<string>, k: nat)
    requires repo.Valid() && repo.Topological(s) && repo.IsPath(p)
    requires k < |s| && p[0] == s[k]
    ensures p[|p| - 1] in s[..k + 1]
    ensures |p| >= 2 ==> p[|p| - 1] in s[..k]
  {
    if |p| >= 2 {
      assert repo.Edge(p[0], p[1]);
      var j :| 0 <= j < k && s[j] == p[1];
      var q := p[1..];
      assert forall i :: 0 < i < |q| ==> q[i - 1] == p[i] && q[i] == p[i + 1];
      assert repo.IsPath(q);
      PathGoesBack(repo, s, q, j);
      assert q[|q| - 1] == p[|p| - 1];
    }
  }

  /** A duplicate-free topological order leaves no room for a cycle through its elements. */
  lemma TopologicalIsAcyclic(repo: Repo, s: seq<string>, c: string)
    requires repo.Valid() && repo.Topological(s) && Distinct(s) && c in s
    ensures !repo.OnCycle(c)
  {
    if repo.OnCycle(c) {
      var p :| repo.PathFrom(p, c, c) && |p| >= 2;
      var k :| 0 <= k < |s| && s[k] == c;
      PathGoesBack(repo, s, p, k);
      assert false;
    }
  }

  lemma ReachStep(repo: Repo, a: string, b: string, c: string)
    requires repo.Valid() && repo.Reach(a, b) && repo.Edge(b, c)
    ensures repo.Reach(a, c)
  {
    var p :| repo.PathFrom(p, a, b);
    assert repo.PathFrom(p + [c], a, c);
  }

  /** An edge from the top of a path back into it closes a cycle. */
  lemma BackEdgeCloses(repo: Repo, p: seq<string>, k: nat)
    requires repo.Valid() && repo.IsPath(p) && k < |p| && repo.Edge(p[|p| - 1], p[k])
    ensures repo.OnCycle(p[k])
  {
    var q := p[k..] + [p[k]];
    assert forall i :: 0 < i < |q| ==> repo.Edge(q[i - 1], q[i]) by {
      forall i | 0 < i < |q| ensures repo.Edge(q[i - 1], q[i]) {
        assert i < |q| - 1 ==> q[i - 1] == p[k + i - 1] && q[i] == p[k + i];
      }
    }
    assert repo.PathFrom(q, p[k], p[k]);
  }

  // ----- names kept out of the plan -----

  ghost function Minus(s: seq<string>, drop: set<string>): (r: seq<string>)
    ensures forall x :: x in r <==> x in s && x !in drop
  {
    if s == [] then []
    else
      var init := Minus(s[..|s| - 1], drop);
      if s[|s| - 1] in drop then init else init + [s[|s| - 1]]
  }

  lemma {:induction false} MinusDistinct(s: seq<string>, drop: set<string>)
    requires Distinct(s)
    ensures Distinct(Minus(s, drop))
  {
    if s != [] {
      MinusDistinct(s[..|s| - 1], drop);
    }
  }

  /** Every dependency known to the repository and not in drop stands before its dependant. */
  ghost predicate OrderedOutside(repo: Repo, s: seq<string>, drop: set<string>)
    requires repo.Valid()
  {
    forall i, d :: 0 <= i < |s| && repo.Edge(s[i], d) && d !in drop ==> d in s[..i]
  }

  /** Dropping installed names keeps uninstalled dependencies before their dependants. */
  lemma {:induction false} MinusOrdered(repo: Repo, s: seq<string>, drop: set<string>)
    requires repo.Valid() && repo.Topological(s)
    ensures OrderedOutside(repo, Minus(s, drop), drop)
  {
    if s != [] {
      var init, last := s[..|s| - 1], s[|s| - 1];
      assert forall i :: 0 <= i < |init| ==> init[i] == s[i] && init[..i] == s[..i];
      MinusOrdered(repo, init, drop);
      var r, r0 := Minus(s, drop), Minus(init, drop);
      assert r == if last in drop then r0 else r0 + [last];
      forall i, d | 0 <= i < |r| && repo.Edge(r[i], d) && d !in drop
        ensures d in r[..i]
      {
        assert r[..i] == r0[..i];
        if i == |r0| {
          assert r[i] == s[|s| - 1] && d in init;
          assert r0[..i] == r0;
        } else {
          assert r[i] == r0[i];
        }
      }
    }
  }

  function NamesOf(order: seq<PackageEntry>): (r: seq<string>)
    ensures |r| == |order| && forall i :: 0 <= i < |r| ==> r[i] == order[i].packageName
  {
    seq(|order|, i requires 0 <= i < |order| => order[i].packageName)
  }

  datatype Resolution = Resolution(installOrder: seq<PackageEntry>, missing: seq<string>, cycles: seq<string>) {
    predicate Success() { missing == [] && cycles == [] }
  }

  // ----- what a run maintains -----

  /** One resolver call: the packages, the requested root and the installed names. */
  datatype Query = Query(repo: Repo, root: string, installed: set<string>)

  /** The walk so far: names being visited in call order, names finished in completion
      order, and the three lists the resolver builds. */
  datatype Walk = Walk(
    stack: seq<string>,
    finished: seq<string>,
    missing: seq<string>,
    cycles: seq<string>,
    order: seq<PackageEntry>)
  {
    ghost predicate Seen(n: string) { n in stack || n in finished }
  }

  ghost predicate Shape(q: Query, w: Walk) {
    && q.repo.Valid()
    && Distinct(w.stack) && Distinct(w.finished) && Distinct(w.missing) && Distinct(w.cycles)
    && (forall n :: n in w.stack ==> n !in w.finished)
    && (w.stack != [] ==> q.repo.IsPath(w.stack) && w.stack[0] == q.root)
    && (forall n :: w.Seen(n) ==> q.repo.Get(n).Some? && q.repo.Reach(q.root, n))
    && NamesOf(w.order) == Minus(w.finished, q.installed)
    && (forall p :: p in w.order ==> q.repo.Get(p.packageName) == Some(p))
  }

  ghost predicate Findings(q: Query, w: Walk)
    requires q.repo.Valid()
  {
    && (forall a, b :: a in w.finished && q.repo.Edge(a, b) ==> w.Seen(b))
    && (forall a, d :: a in w.finished && q.repo.Lacks(a, d) ==> d in w.missing)
    && (forall d :: d in w.missing ==> exists a :: q.repo.Reach(q.root, a) && q.repo.Lacks(a, d))
    && (forall c :: c in w.cycles ==> q.repo.Reach(q.root, c) && q.repo.OnCycle(c))
    && (w.cycles == [] ==> q.repo.Topological(w.finished))
  }

  ghost predicate Inv(q: Query, w: Walk) {
    Shape(q, w) && Findings(q, w)
  }

  /** Dependency number k of pkg has been dealt with. */
  ghost predicate Handled(q: Query, w: Walk, pkg: PackageEntry, k: nat)
    requires q.repo.Valid() && k < |pkg.depends|
  {
    var d := Normalize(pkg.depends[k]);
    || d == "" || d == pkg.packageName
    || (q.repo.Get(d).None? && d in w.missing)
    || (q.repo.Get(d).Some? && (d in w.finished || (d in w.stack && w.cycles != [])))
  }

  lemma EnterKeeps(q: Query, w: Walk, name: string)
    requires Inv(q, w) && q.repo.Get(name).Some? && !w.Seen(name)
    requires if w.stack == [] then name == q.root else q.repo.Edge(w.stack[|w.stack| - 1], name)
    ensures Inv(q, w.(stack := w.stack + [name]))
  {
    var w' := w.(stack := w.stack + [name]);
    if w.stack == [] {
      assert q.repo.PathFrom([name], q.root, name);
    } else {
      assert w.Seen(w.stack[|w.stack| - 1]);
      ReachStep(q.repo, q.root, w.stack[|w.stack| - 1], name);
    }
    AppendFresh(w.stack, name);
    assert forall n :: w'.Seen(n) <==> w.Seen(n) || n == name;
  }

  lemma MissingKeeps(q: Query, w: Walk, name: string, d: string)
    requires Inv(q, w) && name in w.stack && q.repo.Lacks(name, d) && d !in w.missing
    ensures Inv(q, w.(missing := w.missing + [d]))
  {
    var w' := w.(missing := w.missing + [d]);
    AppendFresh(w.missing, d);
    assert w.Seen(name);
    assert forall n :: w'.Seen(n) <==> w.Seen(n);
  }

  lemma CycleKeeps(q: Query, w: Walk, name: string)
    requires Inv(q, w) && name in w.stack && name !in w.cycles
    requires q.repo.Edge(w.stack[|w.stack| - 1], name)
    ensures Inv(q, w.(cycles := w.cycles + [name]))
  {
    var w' := w.(cycles := w.cycles + [name]);
    var k :| 0 <= k < |w.stack| && w.stack[k] == name;
    BackEdgeCloses(q.repo, w.stack, k);
    AppendFresh(w.cycles, name);
    assert w.Seen(name);
    assert forall n :: w'.Seen(n) <==> w.Seen(n);
  }

  /** The end of a visit: the package is finished and, unless installed, planned. */
  function Left(w: Walk, q: Query, pkg: PackageEntry): Walk
    requires w.stack != []
  {
    var name := pkg.packageName;
    var plan := name !in q.installed && name !in NamesOf(w.order);
    w.(stack := w.stack[..|w.stack| - 1],
       finished := w.finished + [name],
       order := if plan then w.order + [pkg] else w.order)
  }

  lemma LeaveShape(q: Query, w: Walk, pkg: PackageEntry)
    requires Shape(q, w) && w.stack != [] && w.stack[|w.stack| - 1] == pkg.packageName
    requires q.repo.Get(pkg.packageName) == Some(pkg)
    ensures Shape(q, Left(w, q, pkg))
    ensures forall n :: Left(w, q, pkg).Seen(n) <==> w.Seen(n)
  {
    var w', name := Left(w, q, pkg), pkg.packageName;
    assert w.stack == w'.stack + [name];
    AppendFresh(w.finished, name);
    assert w'.finished[..|w'.finished| - 1] == w.finished;
    assert NamesOf(w.order + [pkg]) == NamesOf(w.order) + [name];
    assert w'.stack != [] ==> q.repo.IsPath(w'.stack);
    forall n
      ensures w'.Seen(n) <==> w.Seen(n)
    {
      assert n in w.stack <==> n in w'.stack || n == name;
    }
  }

  lemma LeaveKeeps(q: Query, w: Walk, pkg: PackageEntry)
    requires Inv(q, w) && w.stack != [] && w.stack[|w.stack| - 1] == pkg.packageName
    requires q.repo.Get(pkg.packageName) == Some(pkg)
    requires HandledUpTo(q, w, pkg, |pkg.depends|)
    ensures Inv(q, Left(w, q, pkg))
  {
    var w', name := Left(w, q, pkg), pkg.packageName;
    LeaveShape(q, w, pkg);
    forall b | q.repo.Needs(name, b)
      ensures q.repo.Get(b).None? ==> b in w.missing
      ensures q.repo.Get(b).Some? ==> w.Seen(b) && (w.cycles == [] ==> b in w.finished)
    {
      var k :| 0 <= k < |pkg.depends| && Normalize(pkg.depends[k]) == b;
      assert Handled(q, w, pkg, k);
    }
    forall i, d | w.cycles == [] && 0 <= i < |w'.finished| && q.repo.Edge(w'.finished[i], d)
      ensures d in w'.finished[..i]
    {
      assert w'.finished[..i] == w.finished[..i];
    }
  }

  lemma InCycles(w: Walk, name: string)
    requires name in w.cycles
    ensures w.cycles != []
  {
  }

  /** Nothing a walk has found is lost by continuing it. */
  ghost predicate Grows(w: Walk, w': Walk) {
    w.finished <= w'.finished && w.missing <= w'.missing && w.cycles <= w'.cycles
  }

  lemma GrowsReflexive(w: Walk, name: string)
    ensures Grows(w, w)
    ensures Grows(w, w.(stack := w.stack + [name])) && Grows(w, w.(cycles := w.cycles + [name]))
  {
  }

  lemma GrowsTransitive(w0: Walk, w1: Walk, w2: Walk)
    requires Grows(w0, w1) && Grows(w1, w2)
    ensures Grows(w0, w2)
  {
  }

  /** The first n dependencies of pkg have been dealt with. */
  ghost predicate HandledUpTo(q: Query, w: Walk, pkg: PackageEntry, n: nat)
    requires q.repo.Valid() && n <= |pkg.depends|
  {
    forall k :: 0 <= k < n ==> Handled(q, w, pkg, k)
  }

  lemma NoneHandled(q: Query, w: Walk, pkg: PackageEntry)
    requires q.repo.Valid()
    ensures HandledUpTo(q, w, pkg, 0)
  {
  }

  lemma HandledNext(q: Query, w: Walk, w': Walk, pkg: PackageEntry, n: nat)
    requires q.repo.Valid() && n < |pkg.depends| && HandledUpTo(q, w, pkg, n)
    requires Grows(w, w') && w.stack == w'.stack && Handled(q, w', pkg, n)
    ensures HandledUpTo(q, w', pkg, n + 1)
  {
    forall k | 0 <= k < n
      ensures Handled(q, w', pkg, k)
    {
      assert Handled(q, w, pkg, k);
    }
  }

  lemma LeaveGrows(q: Query, w0: Walk, w: Walk, pkg: PackageEntry)
    requires Grows(w0, w) && w.stack == w0.stack + [pkg.packageName]
    ensures Grows(w0, Left(w, q, pkg)) && Left(w, q, pkg).stack == w0.stack
    ensures pkg.packageName in Left(w, q, pkg).finished
  {
  }

  ghost function Room(known: set<string>, visiting: set<string>, visited: set<string>): nat {
    |known - visiting - visited|
  }

  lemma RoomShrinks(known: set<string>, visiting: set<string>, visited: set<string>, visited': set<string>, name: string)
    requires name in known && name !in visiting && name !in visited && visited <= visited'
    ensures Room(known, visiting + {name}, visited') < Room(known, visiting, visited)
  {
    var a, b := known - (visiting + {name}) - visited', known - visiting - visited;
    CardinalMonotone(a, b - {name});
  }

  lemma BudgetShrinks(q: Query, w0: Walk, w: Walk, name: string)
    requires q.repo.Valid() && q.repo.Get(name).Some? && !w0.Seen(name)
    requires w.stack == w0.stack + [name] && Grows(w0, w)
    ensures Budget(q, w) < Budget(q, w0)
  {
    q.repo.GetIsKnown(name);
    assert Elems(w.stack) == Elems(w0.stack) + {name};
    RoomShrinks(q.repo.Known(), Elems(w0.stack), Elems(w0.finished), Elems(w.finished), name);
  }

  lemma {:induction false} CardinalMonotone<T>(a: set<T>, b: set<T>)
    requires a <= b
    ensures |a| <= |b|
  {
    if a != {} {
      var x :| x in a;
      CardinalMonotone(a - {x}, b - {x});
    }
  }

  /** Names a deeper visit may still enter. */
  ghost function Budget(q: Query, w: Walk): nat {
    Room(q.repo.Known(), Elems(w.stack), Elems(w.finished))
  }

  /** The recursive lambda of resolveRecursive; the walk it captures is passed through. */
  method Visit(q: Query, pkg: PackageEntry, w0: Walk) returns (w: Walk)
    requires q.repo.Valid() && Inv(q, w0) && q.repo.Get(pkg.packageName) == Some(pkg)
    requires if w0.stack == [] then pkg.packageName == q.root
             else q.repo.Edge(w0.stack[|w0.stack| - 1], pkg.packageName)
    ensures Inv(q, w) && w.stack == w0.stack && Grows(w0, w)
    ensures pkg.packageName in w.finished || (pkg.packageName in w.stack && w.cycles != [])
    decreases Budget(q, w0), 0
  {
    hide Inv, HandledUpTo, Grows, Budget, Left;
    var name := pkg.packageName;
    GrowsReflexive(w0, name);
    if name in w0.finished {
      return w0;
    }
    if name in w0.stack {
      if name in w0.cycles {
        InCycles(w0, name);
        return w0;
      }
      CycleKeeps(q, w0, name);
      return w0.(cycles := w0.cycles + [name]);
    }

    EnterKeeps(q, w0, name);
    w := w0.(stack := w0.stack + [name]);
    ghost var entered := w;
    NoneHandled(q, w, pkg);
    var i := 0;
    while i < |pkg.depends|
      invariant 0 <= i <= |pkg.depends|
      invariant Inv(q, w) && w.stack == entered.stack && Grows(w0, w) && HandledUpTo(q, w, pkg, i)
    {
      BudgetShrinks(q, w0, w, name);
      var next := VisitDependency(q, pkg, i, w);
      GrowsTransitive(w0, w, next);
      HandledNext(q, w, next, pkg, i);
      w := next;
      i := i + 1;
    }

    LeaveKeeps(q, w, pkg);
    LeaveGrows(q, w0, w, pkg);
    w := Left(w, q, pkg);
  }

  /** One iteration of the loop over a package's dependencies. */
  method VisitDependency(q: Query, pkg: PackageEntry, k: nat, w0: Walk) returns (w: Walk)
    requires q.repo.Valid() && Inv(q, w0) && q.repo.Get(pkg.packageName) == Some(pkg) && k < |pkg.depends|
    requires w0.stack != [] && w0.stack[|w0.stack| - 1] == pkg.packageName
    ensures Inv(q, w) && w.stack == w0.stack && Grows(w0, w) && Handled(q, w, pkg, k)
    decreases Budget(q, w0), 1
  {
    hide Inv;
    w := w0;
    var d := Normalize(pkg.depends[k]);
    if d != "" && d != pkg.packageName {
      assert q.repo.Needs(pkg.packageName, d);
      match q.repo.Get(d) {
        case None =>
          if d !in w.missing {
            MissingKeeps(q, w, pkg.packageName, d);
            w := w.(missing := w.missing + [d]);
          }
        case Some(dep) =>
          w := Visit(q, dep, w);
      }
    }
  }

  /** What the resolver promises about a walk that starts at a known root. */
  ghost predicate Exact(repo: Repo, root: string, installed: set<string>, out: Resolution)
    requires repo.Valid()
  {
    var names := NamesOf(out.installOrder);
    && Distinct(out.missing) && Distinct(out.cycles) && Distinct(names)
    && (forall d :: d in out.missing <==> exists a :: repo.Reach(root, a) && repo.Lacks(a, d))
    && (out.cycles == [] <==> !repo.CyclicFrom(root))
    && (forall c :: c in out.cycles ==> repo.Reach(root, c) && repo.OnCycle(c))
    && (forall n :: n in names <==> repo.Reach(root, n) && n !in installed)
    && (forall p :: p in out.installOrder ==> repo.Get(p.packageName) == Some(p))
    && (out.cycles == [] ==> OrderedOutside(repo, names, installed))
  }

  /** A finished walk from the root is exact: nothing reachable was overlooked. */
  lemma FinishedIsExact(q: Query, w: Walk)
    requires Inv(q, w) && w.stack == [] && q.root in w.finished
    ensures Exact(q.repo, q.root, q.installed, Resolution(w.order, w.missing, w.cycles))
  {
    var repo, done := q.repo, Elems(w.finished);
    assert forall n :: w.Seen(n) <==> n in w.finished;
    assert repo.Closed(done);
    forall n
      ensures n in w.finished <==> repo.Reach(q.root, n)
    {
      if repo.Reach(q.root, n) {
        ClosedHoldsReach(repo, done, q.root, n);
      }
    }
    if w.cycles == [] {
      forall c | repo.Reach(q.root, c)
        ensures !repo.OnCycle(c)
      {
        TopologicalIsAcyclic(repo, w.finished, c);
      }
      MinusOrdered(repo, w.finished, q.installed);
    } else {
      assert w.cycles[0] in w.cycles;
    }
    MinusDistinct(w.finished, q.installed);
  }

  /** resolveRecursive. */
  method ResolveRecursive(repo: Repo, root: string, alreadyInstalled: seq<string>)
    returns (ok: bool, out: Resolution)
    requires repo.Valid()
    ensures repo.Get(root).None? ==> !ok && out == Resolution([], [], [])
    ensures repo.Get(root).Some? ==>
              && Exact(repo, root, Elems(alreadyInstalled), out)
              && (ok <==> out.Success())
  {
    match repo.Get(root) {
      case None =>
        return false, Resolution([], [], []);
      case Some(rootPkg) =>
        var q := Query(repo, root, Elems(alreadyInstalled));
        var w := Visit(q, rootPkg, Walk([], [], [], [], []));
        FinishedIsExact(q, w);
        out := Resolution(w.order, w.missing, w.cycles);
        return out.Success(), out;
    }
  }

  /** Some package reachable from root has an unresolvable dependency. */
  ghost predicate Incomplete(repo: Repo, root: string)
    requires repo.Valid()
  {
    exists a, d :: repo.Reach(root, a) && repo.Lacks(a, d)
  }

  /** Success holds exactly when every reachable dependency is known and no cycle is reachable. */
  lemma SuccessIff(repo: Repo, root: string, installed: set<string>, out: Resolution)
    requires repo.Valid() && Exact(repo, root, installed, out)
    ensures out.Success() <==> !repo.CyclicFrom(root) && !Incomplete(repo, root)
  {
    if out.missing != [] {
      assert out.missing[0] in out.missing;
    }
    if Incomplete(repo, root) {
      var a, d :| repo.Reach(root, a) && repo.Lacks(a, d);
      assert d in out.missing;
    }
  }

  /** The repository as resolveDependencies sees it for one architecture. */
  ghost predicate SeenFor(repo: Repo, list: seq<PackageEntry>, arch: string) {
    && repo.list == list
    && forall name :: repo.maps.Find(name) == Pick(list, name, arch)
  }

  ghost predicate SeenByTermux(repo: Repo, list: seq<PackageEntry>) {
    && repo.list == list
    && forall name :: repo.maps.Find(name) ==
                      if name == "" then None else FirstMatch(list, |list|, name, TermuxOnly)
  }

  method ResolveDependencies(list: seq<PackageEntry>, root: string, arch: string, alreadyInstalled: seq<string>)
    returns (ok: bool, out: Resolution, ghost repo: Repo)
    ensures repo.Valid() && SeenFor(repo, list, arch)
    ensures repo.Get(root).None? ==> !ok && out == Resolution([], [], [])
    ensures repo.Get(root).Some? ==>
              Exact(repo, root, Elems(alreadyInstalled), out) && (ok <==> out.Success())
  {
    var maps := BuildMaps(list, arch);
    var r := Repo(list, maps);
    repo := r;
    ok, out := ResolveRecursive(r, root, alreadyInstalled);
  }

  method ResolveTermuxDependencies(list: seq<PackageEntry>, root: string, alreadyInstalled: seq<string>)
    returns (ok: bool, out: Resolution, ghost repo: Repo)
    ensures repo.Valid() && SeenByTermux(repo, list)
    ensures repo.Get(root).None? ==> !ok && out == Resolution([], [], [])
    ensures repo.Get(root).Some? ==>
              Exact(repo, root, Elems(alreadyInstalled), out) && (ok <==> out.Success())
  {
    var maps := BuildTermuxMap(list);
    var r := Repo(list, maps);
    repo := r;
    ok, out := ResolveRecursive(r, root, alreadyInstalled);
  }
}
