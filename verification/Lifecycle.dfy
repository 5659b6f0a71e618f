/** What the installed-package database keeps from one operation to the next: dependency
    closure, agreement with the payloads on disk, and the fixpoint autoremove computes. */
module Lifecycle {
  import opened StatusDb

  // ----- dependency closure -----

  /** Package p lists d as a dependency that must be installed. */
  predicate Wants(p: InstalledPackage, d: string) {
    d in p.depends && d != "" && d != p.name
  }

  /** d is installed in the domain, Termux or Debian, of p. */
  predicate Met(db: InstalledDb, p: InstalledPackage, d: string) {
    d in db && db[d].termuxPackage == p.termuxPackage
  }

  ghost predicate Closed(db: InstalledDb) {
    forall n, d :: n in db && Wants(db[n], d) ==> Met(db, db[n], d)
  }

  ghost predicate Keyed(db: InstalledDb) {
    forall n :: n in db ==> db[n].name == n
  }

  /** Some other package of the domain of n depends on n: the refusal test of removePackage. */
  ghost predicate Required(db: InstalledDb, n: string)
    requires n in db
  {
    exists m :: m in db && m != n && db[m].termuxPackage == db[n].termuxPackage && n in db[m].depends
  }

  /** Removing a package keeps closure exactly when the refusal test lets it through. */
  lemma RemovalKeepsClosedIff(db: InstalledDb, n: string)
    requires Closed(db) && Keyed(db) && n in db && n != ""
    ensures Closed(db - {n}) <==> !Required(db, n)
  {
    if Required(db, n) {
      var m :| m in db && m != n && db[m].termuxPackage == db[n].termuxPackage && n in db[m].depends;
      assert Wants((db - {n})[m], n) && !Met(db - {n}, db[m], n);
    } else {
      forall m, d | m in db - {n} && Wants(db[m], d)
        ensures Met(db - {n}, db[m], d)
      {
        assert Met(db, db[m], d);
      }
    }
  }

  /** Some package of the other domain depends on a name about to change domain. */
  ghost predicate StolenFrom(db: InstalledDb, p: InstalledPackage) {
    exists m :: m in db && m != p.name && db[m].termuxPackage != p.termuxPackage && Wants(db[m], p.name)
  }

  /** Recording a package keeps closure exactly when its own dependencies are met and no
      package of the other domain relied on the name. */
  lemma RecordingKeepsClosedIff(db: InstalledDb, p: InstalledPackage)
    requires Closed(db) && Keyed(db)
    ensures Closed(db[p.name := p]) <==>
              (forall d :: Wants(p, d) ==> Met(db, p, d)) && !StolenFrom(db, p)
  {
    var db' := db[p.name := p];
    if (forall d :: Wants(p, d) ==> Met(db, p, d)) && !StolenFrom(db, p) {
      forall n, d | n in db' && Wants(db'[n], d)
        ensures Met(db', db'[n], d)
      {
        if n != p.name {
          assert Met(db, db[n], d);
        }
      }
    }
    if Closed(db') {
      forall d | Wants(p, d)
        ensures Met(db, p, d)
      {
        assert Met(db', db'[p.name], d);
      }
    }
    if StolenFrom(db, p) {
      var m :| m in db && m != p.name && db[m].termuxPackage != p.termuxPackage && Wants(db[m], p.name);
      assert Wants(db'[m], p.name) && !Met(db', db'[m], p.name);
    }
  }

  // ----- autoremove -----

  /** Every auto-installed member of s is a dependency of another member of its domain. */
  ghost predicate Supported(db: InstalledDb, s: set<string>) {
    && s <= db.Keys
    && forall n :: n in s && db[n].autoInstalled ==> SupportedIn(db, s, n)
  }

  ghost predicate SupportedIn(db: InstalledDb, s: set<string>, n: string)
    requires s <= db.Keys && n in db
  {
    exists m :: m in s && m != n && db[m].termuxPackage == db[n].termuxPackage && n in db[m].depends
  }

  ghost predicate Largest(db: InstalledDb, s: set<string>) {
    Supported(db, s) && forall t :: Supported(db, t) ==> t <= s
  }

  lemma LargestIsUnique(db: InstalledDb, s: set<string>, t: set<string>)
    requires Largest(db, s) && Largest(db, t)
    ensures s == t
  {
  }

  /** No manually installed package is outside the largest supported set. */
  lemma ManualSurvives(db: InstalledDb, s: set<string>, n: string)
    requires Largest(db, s) && n in db && !db[n].autoInstalled
    ensures n in s
  {
    assert Supported(db, {n});
  }

  /** Nor is a dependency of a member. */
  lemma DependencySurvives(db: InstalledDb, s: set<string>, m: string, n: string)
    requires Largest(db, s) && m in s && n in db && m != n
    requires db[m].termuxPackage == db[n].termuxPackage && n in db[m].depends
    ensures n in s
  {
    var t := s + {n};
    forall x | x in t && db[x].autoInstalled
      ensures SupportedIn(db, t, x)
    {
      if x != n {
        assert SupportedIn(db, s, x);
      } else {
        assert m in t;
      }
    }
    assert Supported(db, t);
  }

  function Restrict(db: InstalledDb, s: set<string>): InstalledDb {
    map n | n in db && n in s :: db[n]
  }

  /** Orphans of a restriction are in no supported subset of it. */
  lemma OrphanIsUnsupported(db: InstalledDb, s: set<string>, n: string, t: set<string>)
    requires s <= db.Keys && n in s && db[n].autoInstalled && !Required(Restrict(db, s), n)
    requires Supported(db, t) && t <= s
    ensures n !in t
  {
    var r := Restrict(db, s);
    assert forall m :: m in t ==> m in r && r[m] == db[m];
    assert !SupportedIn(db, t, n);
  }

  // ----- install roots -----

  const INSTALLED_DIR := "/data/local/tmp/apm/runtime/installed"
  const COMMANDS_DIR := INSTALLED_DIR + "/commands"
  const DEPENDENCIES_DIR := INSTALLED_DIR + "/dependencies"
  const TERMUX_INSTALLED_DIR := INSTALLED_DIR + "/termux/usr/.apm-installed"

  /** joinPath for a directory without trailing slash and a relative name. */
  function Join(dir: string, name: string): string { dir + "/" + name }

  /** The payload of a record: its install root, or the default for records without one. */
  function RootOf(p: InstalledPackage, name: string): string {
    if p.installRoot != "" then p.installRoot
    else Join(if p.termuxPackage then TERMUX_INSTALLED_DIR else INSTALLED_DIR, name)
  }

  lemma JoinInjective(d1: string, n1: string, d2: string, n2: string)
    requires '/' !in n1 && '/' !in n2 && Join(d1, n1) == Join(d2, n2)
    ensures n1 == n2
  {
    var s := Join(d1, n1);
    assert s[|d1|] == '/' && s[|d2|] == '/';
    assert n1 == s[|d1| + 1..] && n2 == s[|d2| + 1..];
    forall k | |d1| < k < |s|
      ensures s[k] != '/'
    {
      assert s[k] == n1[k - |d1| - 1];
    }
    forall k | |d2| < k < |s|
      ensures s[k] != '/'
    {
      assert s[k] == n2[k - |d2| - 1];
    }
  }

  /** p is the tree at root, or lies inside it. */
  predicate Within(p: string, root: string) { p == root || root + "/" <= p }

  /** What is left of the payloads when the tree at root is deleted. */
  function Beside(payloads: set<string>, root: string): set<string> {
    set p | p in payloads && !Within(p, root)
  }

  /** Where the installer puts a package of this name, or the default root of records that
      have none, except where that is the parent of other payloads. */
  predicate Standard(root: string, name: string) {
    && '/' !in name
    && (|| root == Join(COMMANDS_DIR, name) || root == Join(DEPENDENCIES_DIR, name)
        || root == Join(TERMUX_INSTALLED_DIR, name)
        || (root == Join(INSTALLED_DIR, name) && name != "commands" && name != "dependencies" && name != "termux"))
  }

  /** The directories of payloads, as paths below the installed directory. */
  predicate ParentTail(tail: string) {
    tail == "" || tail == "/commands" || tail == "/dependencies" || tail == "/termux/usr/.apm-installed"
  }

  /** A directory below the installed directory that Standard allows for the name. */
  predicate TailAllows(tail: string, name: string) {
    && ParentTail(tail) && '/' !in name
    && (tail == "" ==> name != "commands" && name != "dependencies" && name != "termux")
  }

  lemma StandardTail(root: string, name: string) returns (tail: string)
    requires Standard(root, name)
    ensures TailAllows(tail, name) && root == INSTALLED_DIR + (tail + "/" + name)
  {
    hide INSTALLED_DIR;
    tail := if root == Join(COMMANDS_DIR, name) then "/commands"
            else if root == Join(DEPENDENCIES_DIR, name) then "/dependencies"
            else if root == Join(TERMUX_INSTALLED_DIR, name) then "/termux/usr/.apm-installed"
            else "";
  }

  /** The part of a path between its leading slash and the next. */
  lemma FirstPart(path: string, name: string, k: nat)
    requires "/" + name + "/" <= path && '/' !in name
    requires 0 < k < |path| && path[k] == '/' && forall j :: 0 < j < k ==> path[j] != '/'
    ensures name == path[1..k]
  {
    var head := "/" + name + "/";
    assert head == path[..|head|] && head[|head| - 1] == '/';
    assert path[|head| - 1] == '/' && |head| - 1 >= k;
    forall j | 0 < j < |head| - 1
      ensures path[j] != '/'
    {
      assert path[j] == head[j] == name[j - 1];
    }
    assert head[1..|head| - 1] == name;
  }

  lemma TermuxFirst(path: string)
    requires path == "/termux/usr/.apm-installed/"
    ensures path[1..7] == "termux" && path[7] == '/' && forall j :: 0 < j < 7 ==> path[j] != '/'
  {
    assert path == "/" + "termux" + "/usr/.apm-installed/";
  }

  lemma TopOutside(t: string, name: string)
    requires ParentTail(t) && TailAllows("", name)
    ensures !("/" + name + "/" <= t + "/")
  {
    var d := t + "/";
    if "/" + name + "/" <= d {
      if t == "/commands" {
        FirstPart(d, name, 9);
      } else if t == "/dependencies" {
        FirstPart(d, name, 13);
      } else if t == "/termux/usr/.apm-installed" {
        TermuxFirst(d);
        FirstPart(d, name, 7);
      }
    }
  }

  lemma SameParent(t1: string, t2: string)
    requires ParentTail(t1) && ParentTail(t2) && t1 != "" && t2 != "" && t1[1] == t2[1]
    ensures t1 == t2
  {
  }

  /** No parent of payloads lies in a payload. */
  lemma ParentOutside(t1: string, t2: string, n2: string)
    requires ParentTail(t1) && TailAllows(t2, n2)
    ensures !(t2 + "/" + n2 + "/" <= t1 + "/")
  {
    var d, r := t1 + "/", t2 + "/" + n2 + "/";
    if t2 == "" {
      assert r == "/" + n2 + "/";
      TopOutside(t1, n2);
    } else if r <= d {
      assert |t2| > 1;
      hide ParentTail;
      assert r[1] == t2[1] && d[1] == r[1] && |t1| > 1 && d[1] == t1[1];
      SameParent(t1, t2);
    }
  }

  lemma LastSlash(dir: string, name: string, r: string)
    requires r + "/" <= dir + "/" + name && '/' !in name
    ensures r + "/" <= dir + "/"
  {
    var p := dir + "/" + name;
    assert (r + "/")[|r|] == '/' == p[|r|];
    forall k | |dir| < k < |p|
      ensures p[k] != '/'
    {
      assert p[k] == name[k - |dir| - 1];
    }
    assert (dir + "/")[..|r| + 1] == p[..|r| + 1] == r + "/";
  }

  /** No payload lies in the payload of another package. */
  lemma TailsApart(t1: string, n1: string, t2: string, n2: string)
    requires TailAllows(t1, n1) && TailAllows(t2, n2) && n1 != n2
    ensures !Within(t1 + "/" + n1, t2 + "/" + n2)
  {
    hide ParentTail;
    var p, r := t1 + "/" + n1, t2 + "/" + n2;
    if p == r {
      JoinInjective(t1, n1, t2, n2);
    } else if r + "/" <= p {
      LastSlash(t1, n1, r);
      ParentOutside(t1, t2, n2);
    }
  }

  lemma StandardApart(r1: string, n1: string, r2: string, n2: string)
    requires Standard(r1, n1) && Standard(r2, n2) && n1 != n2
    ensures !Within(r1, r2)
  {
    hide Standard, TailAllows, Within;
    var t1 := StandardTail(r1, n1);
    var t2 := StandardTail(r2, n2);
    TailsApart(t1, n1, t2, n2);
    WithinBelow(INSTALLED_DIR, t1 + "/" + n1, t2 + "/" + n2);
  }

  lemma WithinBelow(dir: string, p: string, r: string)
    ensures Within(dir + p, dir + r) ==> Within(p, r)
  {
    if dir + p == dir + r {
      assert p == (dir + p)[|dir|..] == (dir + r)[|dir|..] == r;
    } else if dir + r + "/" <= dir + p {
      assert p == (dir + p)[|dir|..];
      assert r + "/" == (dir + r + "/")[|dir|..];
    }
  }

  /** Every record has its payload where the installer would put it. */
  ghost predicate Placed(db: InstalledDb) {
    forall n :: n in db ==> Standard(RootOf(db[n], n), n)
  }

  function Roots(db: InstalledDb): set<string> {
    set n | n in db :: RootOf(db[n], n)
  }

  /** The payloads on disk are those of the recorded packages. */
  ghost predicate Agree(db: InstalledDb, payloads: set<string>) {
    payloads == Roots(db)
  }

  /** Deleting the tree of one package takes exactly its own payload. */
  lemma AgreeAfterRemoval(db: InstalledDb, payloads: set<string>, n: string)
    requires Placed(db) && Agree(db, payloads) && n in db
    ensures var root := RootOf(db[n], n);
            && Beside(payloads, root) == payloads - {root} && root in payloads
            && Placed(db - {n}) && Agree(db - {n}, payloads - {root})
  {
    hide Standard, Within, RootOf;
    var root := RootOf(db[n], n);
    ItsOwnTree(root);
    forall m | m in db && m != n
      ensures !Within(RootOf(db[m], m), root) && RootOf(db[m], m) != root
    {
      StandardApart(RootOf(db[m], m), m, root, n);
    }
    forall p | p in payloads && p != root
      ensures !Within(p, root)
    {
      var m :| m in db && RootOf(db[m], m) == p;
    }
    assert Beside(payloads, root) == payloads - {root};
    RootsWithout(db, n);
  }

  lemma RootsWithout(db: InstalledDb, n: string)
    requires n in db && forall m :: m in db && m != n ==> RootOf(db[m], m) != RootOf(db[n], n)
    ensures Roots(db - {n}) == Roots(db) - {RootOf(db[n], n)}
  {
    hide RootOf;
    assert forall m :: m in db - {n} ==> (db - {n})[m] == db[m];
    forall r | r in Roots(db) && r != RootOf(db[n], n)
      ensures r in Roots(db - {n})
    {
      var m :| m in db && RootOf(db[m], m) == r;
      assert m in db - {n};
    }
  }

  lemma ItsOwnTree(root: string)
    ensures Within(root, root)
  {
  }

  /** No payload is inside the tree at root. */
  ghost predicate Free(payloads: set<string>, root: string) {
    forall p :: p in payloads ==> !Within(p, root)
  }

  lemma FreshRoot(db: InstalledDb, n: string, root: string)
    requires Placed(db) && n !in db && Standard(root, n)
    ensures Free(Roots(db), root)
  {
    hide Standard, Within, RootOf;
    forall m | m in db
      ensures !Within(RootOf(db[m], m), root)
    {
      StandardApart(RootOf(db[m], m), m, root, n);
    }
  }

  lemma AgreeAfterInstall(db: InstalledDb, payloads: set<string>, p: InstalledPackage)
    requires Placed(db) && Agree(db, payloads) && p.name !in db && Standard(p.installRoot, p.name)
    ensures Placed(db[p.name := p]) && Agree(db[p.name := p], payloads + {p.installRoot})
    ensures Free(payloads, p.installRoot)
  {
    FreshRoot(db, p.name, p.installRoot);
    StandardNotEmpty(p.installRoot, p.name);
    hide Standard, Within;
    var db' := db[p.name := p];
    assert RootOf(p, p.name) == p.installRoot;
    RootsWith(db, p);
  }

  lemma RootsWith(db: InstalledDb, p: InstalledPackage)
    requires p.name !in db
    ensures Roots(db[p.name := p]) == Roots(db) + {RootOf(p, p.name)}
  {
    hide RootOf;
    var db' := db[p.name := p];
    assert p.name in db' && forall m :: m in db ==> db'[m] == db[m];
    forall r | r in Roots(db)
      ensures r in Roots(db')
    {
      var m :| m in db && RootOf(db[m], m) == r;
      assert m in db';
    }
  }

  lemma StandardNotEmpty(root: string, name: string)
    requires Standard(root, name)
    ensures root != ""
  {
  }

  /** Why roots may not be nested: a record called commands without an install root has the
      directory of all commands as its payload, and removing it takes them along. */
  lemma NestedRoot(db: InstalledDb, n: string)
    requires n in db && db[n].installRoot == Join(COMMANDS_DIR, n)
    requires "commands" in db && db["commands"].installRoot == "" && !db["commands"].termuxPackage
    requires n != "commands"
    ensures !Placed(db)
    ensures !Agree(db - {"commands"}, Beside(Roots(db), RootOf(db["commands"], "commands")))
  {
    hide Standard;
    var root, left := RootOf(db["commands"], "commands"), db - {"commands"};
    assert root == Join(INSTALLED_DIR, "commands") == COMMANDS_DIR;
    assert Join(COMMANDS_DIR, n) == COMMANDS_DIR + "/" + n && Within(Join(COMMANDS_DIR, n), root);
    assert n in left && left[n] == db[n] && RootOf(left[n], n) == Join(COMMANDS_DIR, n);
    assert Join(COMMANDS_DIR, n) in Roots(left);
    CommandsIsNotStandard();
  }

  lemma CommandsIsNotStandard()
    ensures !Standard(COMMANDS_DIR, "commands")
  {
  }
}
