/** Install, remove and autoremove over a status file and the payloads on disk, with
    faults allowed at every storage operation. */
module InstallManager {
  import opened Wrappers
  import opened RepoIndex
  import opened Dependency
  import opened StatusDb
  import opened Lifecycle
  import opened StatusStore
  import opened InstallSpec
  import Depends
  import StatusFile
  import StatusSettles
  import Text

  // ----- names -----

  predicate NameChar(c: char) { 'a' <= c <= 'z' || '0' <= c <= '9' || c in "+-." }

  predicate HasDotDot(s: string) { exists i :: 0 <= i < |s| - 1 && s[i] == '.' && s[i + 1] == '.' }

  /** validatePackageName; path separators are excluded with every other character. */
  predicate ValidName(name: string) {
    && name != "" && !HasDotDot(name)
    && ('a' <= name[0] <= 'z' || '0' <= name[0] <= '9')
    && forall c :: c in name ==> NameChar(c)
  }

  /** A name is legal exactly when it starts with a lower-case letter or digit, goes on with
      those, plus, minus and dot, and has no two dots in a row. */
  lemma ValidNameIff(name: string)
    ensures ValidName(name) <==>
              && name != "" && ('a' <= name[0] <= 'z' || '0' <= name[0] <= '9')
              && (forall i :: 0 <= i < |name| ==>
                    'a' <= name[i] <= 'z' || '0' <= name[i] <= '9' || name[i] == '+' || name[i] == '-' || name[i] == '.')
              && (forall i :: 0 < i < |name| ==> name[i] != '.' || name[i - 1] != '.')
  {
    if HasDotDot(name) {
      var i :| 0 <= i < |name| - 1 && name[i] == '.' && name[i + 1] == '.';
      assert name[i + 1 - 1] == '.';
    } else {
      assert forall i :: 0 < i < |name| ==> name[i] != '.' || name[i - 1] != '.' by {
        forall i | 0 < i < |name|
          ensures name[i] != '.' || name[i - 1] != '.'
        {
          assert !(name[i - 1] == '.' && name[i - 1 + 1] == '.');
        }
      }
    }
    assert forall i :: 0 <= i < |name| ==> name[i] in name;
  }

  // ----- planning an install -----

  /** The entries of one index, as an install merges them. */
  function Marked(idx: Index): seq<PackageEntry> {
    seq(|idx.packages|, i requires 0 <= i < |idx.packages| =>
      var p := idx.packages[i]; if idx.termux then p.(isTermuxPackage := true) else p)
  }

  /** The entries of all indices, in order, marked with the domain of their index. */
  function Merged(indices: seq<Index>): seq<PackageEntry> {
    if indices == [] then []
    else
      var last := indices[|indices| - 1];
      Merged(indices[..|indices| - 1]) + Marked(last)
  }

  function InDomain(pkgs: seq<PackageEntry>, termux: bool): (r: seq<PackageEntry>)
    ensures forall p :: p in r <==> p in pkgs && p.isTermuxPackage == termux
  {
    if pkgs == [] then []
    else
      var init := InDomain(pkgs[..|pkgs| - 1], termux);
      if pkgs[|pkgs| - 1].isTermuxPackage == termux then init + [pkgs[|pkgs| - 1]] else init
  }

  predicate Offers(pkgs: seq<PackageEntry>, name: string, termux: bool) {
    exists p :: p in pkgs && p.packageName == name && p.isTermuxPackage == termux
  }

  lemma OffersMore(a: seq<PackageEntry>, b: seq<PackageEntry>, name: string, termux: bool)
    ensures Offers(a + b, name, termux) <==> Offers(a, name, termux) || Offers(b, name, termux)
  {
    assert forall p :: p in a + b <==> p in a || p in b;
  }

  lemma MarkedOffers(indices: seq<Index>, name: string, termux: bool)
    requires indices != []
    ensures var at := |indices| - 1;
            Offers(Marked(indices[at]), name, termux) <==>
              exists k :: 0 <= k < |indices[at].packages| && OffersAt(indices, at, k, name, termux)
  {
    var at := |indices| - 1;
    var marked := Marked(indices[at]);
    if Offers(marked, name, termux) {
      var p :| p in marked && p.packageName == name && p.isTermuxPackage == termux;
      var k :| 0 <= k < |marked| && marked[k] == p;
      assert OffersAt(indices, at, k, name, termux);
    }
    if k :| 0 <= k < |indices[at].packages| && OffersAt(indices, at, k, name, termux) {
      assert marked[k] in marked;
    }
  }

  lemma OfferedMore(indices: seq<Index>, name: string, termux: bool)
    requires indices != []
    ensures var init, at := indices[..|indices| - 1], |indices| - 1;
            Offered(indices, name, termux) <==>
              || Offered(init, name, termux)
              || exists k :: 0 <= k < |indices[at].packages| && OffersAt(indices, at, k, name, termux)
  {
    var init, at := indices[..|indices| - 1], |indices| - 1;
    if Offered(init, name, termux) {
      var i, k :| 0 <= i < |init| && 0 <= k < |init[i].packages| && OffersAt(init, i, k, name, termux);
      assert OffersAt(indices, i, k, name, termux);
    }
    if Offered(indices, name, termux) {
      var i, k :| 0 <= i < |indices| && 0 <= k < |indices[i].packages| && OffersAt(indices, i, k, name, termux);
      if i < at {
        assert OffersAt(init, i, k, name, termux);
      }
    }
  }

  /** What the installer finds in the merged list is what some index offers. */
  lemma {:induction false} OfferedIff(indices: seq<Index>, name: string, termux: bool)
    ensures Offers(Merged(indices), name, termux) <==> Offered(indices, name, termux)
  {
    if indices != [] {
      hide Offers, Offered, OffersAt;
      var init, last := indices[..|indices| - 1], indices[|indices| - 1];
      OfferedIff(init, name, termux);
      OfferedMore(indices, name, termux);
      MarkedOffers(indices, name, termux);
      OffersMore(Merged(init), Marked(last), name, termux);
    }
  }

  lemma ModeIsDomain(indices: seq<Index>, name: string, asked: bool)
    ensures Mode(Merged(indices), name, asked) <==> Domain(indices, name, asked)
  {
    OfferedIff(indices, name, true);
    OfferedIff(indices, name, false);
  }

  function InstallRoot(name: string, rootPackage: string, termux: bool): string {
    Join(RootDir(name, rootPackage, termux), name)
  }

  function RootDir(name: string, rootPackage: string, termux: bool): string {
    if termux then TERMUX_INSTALLED_DIR else if name != rootPackage then DEPENDENCIES_DIR else COMMANDS_DIR
  }

  const TERMUX_PREFIX := INSTALLED_DIR + "/termux/usr"

  /** The record written for pkg; an earlier record passes on its auto-installed flag
      unless the package was asked for by name. */
  function RecordFor(pkg: PackageEntry, db: InstalledDb, rootPackage: string, termux: bool): InstalledPackage {
    var name := pkg.packageName;
    InstalledPackage(
      name, pkg.version, pkg.architecture, "install ok installed",
      InstallRoot(name, rootPackage, termux), pkg.repoUri, pkg.repoDist, pkg.repoComponent,
      if termux then TERMUX_PREFIX else "",
      pkg.depends,
      name != rootPackage && (name in db ==> db[name].autoInstalled),
      termux)
  }

  /** The database after the given packages were recorded one after the other. */
  function Recorded(db: InstalledDb, done: seq<PackageEntry>, rootPackage: string, termux: bool): InstalledDb {
    if done == [] then db
    else
      var before, pkg := Recorded(db, done[..|done| - 1], rootPackage, termux), done[|done| - 1];
      before[pkg.packageName := RecordFor(pkg, before, rootPackage, termux)]
  }

  /** What the resolver guarantees about a plan, as far as the database is concerned. */
  ghost predicate GoodPlan(order: seq<PackageEntry>, db: InstalledDb, termux: bool) {
    && Distinct(NamesOf(order))
    && (forall p :: p in order ==> !(p.packageName in db && db[p.packageName].termuxPackage == termux))
    && (forall k, d :: 0 <= k < |order| && d in order[k].depends ==> DependencyReady(order, k, Normalize(d), db, termux))
  }

  ghost predicate DependencyReady(order: seq<PackageEntry>, k: nat, d: string, db: InstalledDb, termux: bool)
    requires k < |order|
  {
    || d == "" || d == order[k].packageName
    || (d in db && db[d].termuxPackage == termux)
    || d in NamesOf(order[..k])
  }

  /** A successful resolution against the in-domain names of db is a good plan. */
  lemma ResolutionIsGoodPlan(repo: Repo, root: string, installed: set<string>, out: Resolution, db: InstalledDb, termux: bool)
    requires repo.Valid() && Exact(repo, root, installed, out) && out.Success()
    requires forall n :: n in installed <==> n in db && db[n].termuxPackage == termux
    ensures GoodPlan(out.installOrder, db, termux)
  {
    var order, names := out.installOrder, NamesOf(out.installOrder);
    forall p | p in order
      ensures p.packageName !in installed
    {
      var k :| 0 <= k < |order| && order[k] == p;
      assert names[k] in names;
    }
    forall k, d | 0 <= k < |order| && d in order[k].depends
      ensures DependencyReady(order, k, Normalize(d), db, termux)
    {
      var pkg, n := order[k], Normalize(d);
      assert names[k] == pkg.packageName && names[k] in names && pkg in order;
      if n != "" && n != pkg.packageName {
        var j :| 0 <= j < |pkg.depends| && pkg.depends[j] == d;
        assert repo.Needs(pkg.packageName, n);
        assert repo.Lacks(pkg.packageName, n) ==> n in out.missing;
        assert repo.Edge(names[k], n);
        assert NamesOf(order[..k]) == names[..k];
      }
    }
  }

  /** No package of the plan carries a name the other domain uses. */
  ghost predicate NoClash(order: seq<PackageEntry>, db: InstalledDb) {
    forall p :: p in order ==> p.packageName !in db
  }

  ghost predicate Normalised(order: seq<PackageEntry>) {
    forall p, d :: p in order && d in p.depends ==> ':' !in d
  }

  lemma RecordForFields(pkg: PackageEntry, db: InstalledDb, root: string, termux: bool)
    ensures var p := RecordFor(pkg, db, root, termux);
            && p.name == pkg.packageName && p.depends == pkg.depends && p.termuxPackage == termux
            && p.installRoot == InstallRoot(pkg.packageName, root, termux)
            && (pkg.packageName !in db ==> p.autoInstalled == (pkg.packageName != root))
  {
  }

  /** The record of an entry says what a caller expects of it. */
  lemma RecordForDescribes(pkg: PackageEntry, before: InstalledDb, db: InstalledDb, root: string, termux: bool)
    requires pkg.packageName in before <==> pkg.packageName in db
    requires pkg.packageName in db ==> before[pkg.packageName] == db[pkg.packageName]
    ensures Describes(RecordFor(pkg, before, root, termux), pkg, db, root, termux)
  {
  }

  lemma RecordsOfNone(db: InstalledDb, root: string, termux: bool)
    ensures RecordsOf(db, db, [], root, termux)
  {
  }

  lemma RecordsOfNext(db: InstalledDb, now: InstalledDb, done: seq<PackageEntry>, pkg: PackageEntry, root: string, termux: bool)
    requires RecordsOf(db, now, done, root, termux) && pkg.packageName !in NamesOf(done)
    ensures RecordsOf(db, now[pkg.packageName := RecordFor(pkg, now, root, termux)], done + [pkg], root, termux)
  {
    hide RecordFor, Describes;
    var name := pkg.packageName;
    RecordForDescribes(pkg, now, db, root, termux);
    assert forall k :: 0 <= k < |done| ==> NamesOf(done)[k] in NamesOf(done);
    assert NamesOf(done + [pkg]) == NamesOf(done) + [name];
  }

  /** So do all records of a plan that was carried out, and no other record changes. */
  lemma {:induction false} RecordedRecords(db: InstalledDb, order: seq<PackageEntry>, i: nat, root: string, termux: bool)
    requires i <= |order| && Distinct(NamesOf(order))
    ensures RecordsOf(db, Recorded(db, order[..i], root, termux), order[..i], root, termux)
  {
    hide RecordFor, Recorded, Steps, PlannedRoots, RecordsOf;
    NothingRecorded(db, order, root, termux);
    if i == 0 {
      RecordsOfNone(db, root, termux);
    } else {
      RecordedRecords(db, order, i - 1, root, termux);
      OneMoreRecorded(db, order, i - 1, root, termux);
      NameIsNew(order, i - 1);
      RecordsOfNext(db, Recorded(db, order[..i - 1], root, termux), order[..i - 1], order[i - 1], root, termux);
      assert order[..i] == order[..i - 1] + [order[i - 1]];
    }
  }

  lemma NameIsNew(order: seq<PackageEntry>, i: nat)
    requires i < |order| && Distinct(NamesOf(order))
    ensures order[i].packageName !in NamesOf(order[..i])
  {
    forall j | 0 <= j < i
      ensures NamesOf(order[..i])[j] != order[i].packageName
    {
      assert NamesOf(order)[j] != NamesOf(order)[i];
    }
  }

  /** now is db with records for exactly the given names added or replaced. */
  ghost predicate Extends(db: InstalledDb, now: InstalledDb, names: seq<string>, termux: bool) {
    && (forall n :: n in now <==> n in db || n in names)
    && (forall n :: n in names ==> n in now && now[n].termuxPackage == termux)
    && (forall n :: n in now && n !in names ==> now[n] == db[n])
    && (Keyed(db) ==> Keyed(now))
  }

  lemma ExtendsNext(db: InstalledDb, now: InstalledDb, names: seq<string>, termux: bool, p: InstalledPackage)
    requires Extends(db, now, names, termux) && p.termuxPackage == termux
    ensures Extends(db, now[p.name := p], names + [p.name], termux)
  {
    assert forall n :: n in names + [p.name] <==> n in names || n == p.name;
  }

  /** Recording part of a plan adds those records and changes nothing else. */
  lemma {:induction false} RecordedKeys(db: InstalledDb, order: seq<PackageEntry>, i: nat, root: string, termux: bool)
    requires i <= |order|
    ensures Extends(db, Recorded(db, order[..i], root, termux), NamesOf(order[..i]), termux)
  {
    hide RecordFor, Extends, Recorded, NamesOf, Steps, PlannedRoots;
    if i == 0 {
      NothingRecorded(db, order, root, termux);
      ExtendsNone(db, termux);
    } else {
      var pkg := order[i - 1];
      RecordedKeys(db, order, i - 1, root, termux);
      var before := Recorded(db, order[..i - 1], root, termux);
      RecordForFields(pkg, before, root, termux);
      OneMoreRecorded(db, order, i - 1, root, termux);
      ExtendsNext(db, before, NamesOf(order[..i - 1]), termux, RecordFor(pkg, before, root, termux));
      NamesOfNext(order, i - 1);
    }
  }

  lemma NamesOfNext(order: seq<PackageEntry>, i: nat)
    requires i < |order|
    ensures NamesOf(order[..i + 1]) == NamesOf(order[..i]) + [order[i].packageName]
  {
  }

  lemma ExtendsNone(db: InstalledDb, termux: bool)
    ensures Extends(db, db, [], termux)
  {
  }

  /** An install never touches a record already in its domain; a reinstall, and with it an
      upgrade, of such a package therefore changes nothing. */
  lemma InDomainUntouched(db: InstalledDb, order: seq<PackageEntry>, i: nat, root: string, termux: bool, n: string)
    requires i <= |order| && GoodPlan(order, db, termux)
    requires n in db && db[n].termuxPackage == termux
    ensures var now := Recorded(db, order[..i], root, termux); n in now && now[n] == db[n]
  {
    RecordedKeys(db, order, i, root, termux);
    forall j | 0 <= j < i
      ensures NamesOf(order[..i])[j] != n
    {
      assert order[j] in order;
    }
  }

  /** Every intermediate database of a good plan is closed. */
  lemma {:induction false} RecordedClosed(db: InstalledDb, order: seq<PackageEntry>, i: nat, root: string, termux: bool)
    requires i <= |order| && GoodPlan(order, db, termux)
    requires Closed(db) && Keyed(db) && NoClash(order, db) && Normalised(order)
    ensures Closed(Recorded(db, order[..i], root, termux))
  {
    if i > 0 {
      assert order[..i][..i - 1] == order[..i - 1];
      RecordedClosed(db, order, i - 1, root, termux);
      RecordedKeys(db, order, i - 1, root, termux);
      var before, pkg := Recorded(db, order[..i - 1], root, termux), order[i - 1];
      var p := RecordFor(pkg, before, root, termux);
      assert pkg in order;
      NewNameIsFresh(db, order, i - 1, root, termux);
      forall d | Wants(p, d)
        ensures Met(before, p, d)
      {
        assert Normalize(d) == d && DependencyReady(order, i - 1, d, db, termux);
      }
      assert forall m :: m in before && Wants(before[m], p.name) ==> Met(before, before[m], p.name);
      RecordingKeepsClosedIff(before, p);
    }
  }

  lemma NewNameIsFresh(db: InstalledDb, order: seq<PackageEntry>, i: nat, root: string, termux: bool)
    requires i < |order| && GoodPlan(order, db, termux) && NoClash(order, db)
    ensures order[i].packageName !in Recorded(db, order[..i], root, termux)
  {
    RecordedKeys(db, order, i, root, termux);
    assert order[i] in order;
    var names := NamesOf(order);
    assert forall j :: 0 <= j < i ==> names[j] != names[i] && NamesOf(order[..i])[j] == names[j];
  }

  lemma InstallRootIsJoin(name: string, root: string, termux: bool)
    ensures InstallRoot(name, root, termux) == Join(RootDir(name, root, termux), name)
  {
  }

  /** The database and the payloads agree after any part of a good plan. */
  lemma {:induction false} RecordedAgree(db: InstalledDb, payloads: set<string>, order: seq<PackageEntry>, i: nat,
                                         root: string, termux: bool)
    requires i <= |order| && GoodPlan(order, db, termux) && NoClash(order, db)
    requires Placed(db) && Agree(db, payloads) && forall j :: 0 <= j < i ==> ValidName(order[j].packageName)
    ensures var now := Recorded(db, order[..i], root, termux);
            Placed(now) && Agree(now, payloads + PlannedRoots(order[..i], root, termux))
  {
    hide Placed, GoodPlan, NoClash, ValidName, RecordFor, Agree, InstallRoot, RootDir, Standard;
    if i > 0 {
      var pkg := order[i - 1];
      assert order[..i][..i - 1] == order[..i - 1] && order[..i][i - 1] == pkg;
      RecordedAgree(db, payloads, order, i - 1, root, termux);
      NewNameIsFresh(db, order, i - 1, root, termux);
      InstallRootIsStandard(pkg.packageName, root, termux);
      var before := Recorded(db, order[..i - 1], root, termux);
      var p := RecordFor(pkg, before, root, termux);
      RecordForFields(pkg, before, root, termux);
      AgreeAfterInstall(before, payloads + PlannedRoots(order[..i - 1], root, termux), p);
      assert payloads + PlannedRoots(order[..i], root, termux) ==
             payloads + PlannedRoots(order[..i - 1], root, termux) + {p.installRoot};
    } else {
      assert order[..0] == [] && payloads + {} == payloads;
    }
  }

  /** The root of the next package of a good plan is free. */
  lemma NextRootIsFree(db: InstalledDb, payloads: set<string>, order: seq<PackageEntry>, i: nat, root: string, termux: bool)
    requires i < |order| && GoodPlan(order, db, termux) && NoClash(order, db)
    requires Placed(db) && Agree(db, payloads) && forall j :: 0 <= j <= i ==> ValidName(order[j].packageName)
    ensures Free(payloads + PlannedRoots(order[..i], root, termux), InstallRoot(order[i].packageName, root, termux))
  {
    hide Placed, GoodPlan, NoClash, ValidName, RecordFor, Standard, InstallRoot, Free, Within;
    RecordedAgree(db, payloads, order, i, root, termux);
    NewNameIsFresh(db, order, i, root, termux);
    InstallRootIsStandard(order[i].packageName, root, termux);
    FreshRoot(Recorded(db, order[..i], root, termux), order[i].packageName, InstallRoot(order[i].packageName, root, termux));
  }

  function PlannedRoots(done: seq<PackageEntry>, root: string, termux: bool): set<string> {
    if done == [] then {}
    else PlannedRoots(done[..|done| - 1], root, termux) + {InstallRoot(done[|done| - 1].packageName, root, termux)}
  }

  lemma InstallRootIsStandard(name: string, root: string, termux: bool)
    requires ValidName(name)
    ensures Standard(InstallRoot(name, root, termux), name)
  {
    assert !NameChar('/');
  }

  /** Where no payload is inside the root, an install changes nothing but the root. */
  lemma OnlyRootChanges(before: set<string>, after: set<string>, root: string)
    requires Free(before, root) && Beside(after, root) == Beside(before, root) && after <= before + {root}
    ensures after == before + (if root in after then {root} else {}) && root !in before
  {
    hide Within;
    ItsOwnTree(root);
    assert Beside(before, root) == before;
    assert before <= after;
  }

  // ----- what survives the status file -----

  /** Entries whose record survives the status file: one-line fields without edge spaces, and
      bare dependency names. */
  ghost predicate EntryStorable(p: PackageEntry) {
    && StatusFile.PlainValue(p.version) && StatusFile.PlainValue(p.architecture) && StatusFile.PlainValue(p.repoUri)
    && StatusFile.PlainValue(p.repoDist) && StatusFile.PlainValue(p.repoComponent)
    && forall d :: d in p.depends ==> Depends.CleanName(d)
  }

  ghost predicate AllStorable(pkgs: seq<PackageEntry>) { forall p :: p in pkgs ==> EntryStorable(p) }

  lemma EdgesArePlain(v: string)
    requires '\n' !in v && v != "" && !Text.IsSpace(v[0]) && !Text.IsSpace(v[|v| - 1])
    ensures StatusFile.PlainValue(v)
  {
    Text.TrimIdIff(v);
  }

  lemma NameIsPlain(name: string)
    requires ValidName(name)
    ensures StatusFile.PlainValue(name) && name != "" && !Text.IsSpace(name[|name| - 1]) && '\n' !in name
  {
    hide StatusFile.PlainValue;
    assert name[0] in name && name[|name| - 1] in name && !NameChar('\n');
    EdgesArePlain(name);
  }

  predicate IsDirectory(dir: string) {
    dir != "" && dir[0] == '/' && forall i :: 0 <= i < |dir| ==> !Text.IsSpace(dir[i])
  }

  lemma DirectoriesAreClean()
    ensures IsDirectory(INSTALLED_DIR) && IsDirectory(COMMANDS_DIR) && IsDirectory(DEPENDENCIES_DIR)
    ensures IsDirectory(TERMUX_INSTALLED_DIR) && IsDirectory(TERMUX_PREFIX)
  {
    assert IsDirectory("/data/local/tmp/apm/runtime/installed");
    DirectoryTail("/commands");
    DirectoryTail("/dependencies");
    DirectoryTail("/termux/usr/.apm-installed");
    DirectoryTail("/termux/usr");
  }

  lemma DirectoryTail(tail: string)
    requires IsDirectory(tail)
    ensures IsDirectory(INSTALLED_DIR) ==> IsDirectory(INSTALLED_DIR + tail)
  {
    var d := INSTALLED_DIR + tail;
    assert forall i :: |INSTALLED_DIR| <= i < |d| ==> d[i] == tail[i - |INSTALLED_DIR|];
  }

  lemma RootIsPlain(dir: string, name: string)
    requires IsDirectory(dir) && ValidName(name)
    ensures StatusFile.PlainValue(Join(dir, name)) && StatusFile.PlainValue(dir)
  {
    hide StatusFile.PlainValue, ValidName;
    NameIsPlain(name);
    var root := Join(dir, name);
    assert root[0] == dir[0] && root[|root| - 1] == name[|name| - 1];
    EdgesArePlain(root);
    EdgesArePlain(dir);
  }

  lemma ConstantsArePlain()
    ensures StatusFile.PlainValue("install ok installed") && StatusFile.PlainValue("")
  {
    hide StatusFile.PlainValue;
    EdgesArePlain("install ok installed");
    StatusFile.FlagsArePlain();
  }

  lemma RecordIsWellFormed(pkg: PackageEntry, db: InstalledDb, rootPackage: string, termux: bool)
    requires EntryStorable(pkg) && ValidName(pkg.packageName)
    ensures StatusFile.WellFormed(RecordFor(pkg, db, rootPackage, termux))
  {
    hide StatusFile.PlainValue, ValidName, IsDirectory, Depends.CleanName;
    DirectoriesAreClean();
    ConstantsArePlain();
    NameIsPlain(pkg.packageName);
    RootIsPlain(RootDir(pkg.packageName, rootPackage, termux), pkg.packageName);
    RootIsPlain(TERMUX_PREFIX, pkg.packageName);
    InstallRootIsJoin(pkg.packageName, rootPackage, termux);
  }

  /** Recording storable entries keeps the database storable. */
  lemma {:induction false} RecordedStorable(db: InstalledDb, order: seq<PackageEntry>, i: nat, root: string, termux: bool)
    requires StatusFile.Storable(db) && i <= |order| && AllStorable(order)
    requires forall j :: 0 <= j < i ==> ValidName(order[j].packageName)
    ensures StatusFile.Storable(Recorded(db, order[..i], root, termux))
  {
    hide StatusFile.WellFormed, EntryStorable, ValidName, RecordFor, Recorded, Steps, PlannedRoots;
    NothingRecorded(db, order, root, termux);
    if i > 0 {
      RecordedStorable(db, order, i - 1, root, termux);
      OneMoreRecorded(db, order, i - 1, root, termux);
      var before := Recorded(db, order[..i - 1], root, termux);
      assert order[i - 1] in order;
      RecordIsWellFormed(order[i - 1], before, root, termux);
      RecordForFields(order[i - 1], before, root, termux);
    }
  }

  /** One pass of the install loop. `why` tells what a failed pass failed on: the name, or a step
      that reported a failure, or a root that is in the way; `fault` what kept it from clearing
      the install root it had filled. */
  method InstallOne(store: Store, db: InstalledDb, pkg: PackageEntry, rootPackage: string, termux: bool, reinstall: bool)
    returns (why: InstallWhy, db': InstalledDb, fault: Option<Fault>)
    modifies store
    ensures store.unseenLeft <= old(store.unseenLeft) && store.failed >= old(store.failed)
    ensures why.Complete? || why == BadEntry(pkg.packageName) || why == StepFailed(pkg.packageName)
    ensures why.BadEntry? ==> !ValidName(pkg.packageName)
    ensures why.StepFailed? && !ValidName(pkg.packageName) ==> store.failed > old(store.failed)
    ensures why.StepFailed? ==>
              || store.failed > old(store.failed)
              || InstallRoot(pkg.packageName, rootPackage, termux) in old(store.payloads) * store.payloads
    ensures why.Complete? ==>
              && ValidName(pkg.packageName) && fault.None?
              && db' == db[pkg.packageName := RecordFor(pkg, db, rootPackage, termux)]
              && (store.unseenLeft == old(store.unseenLeft) ==> Prints(store.text, db'))
              && store.persisted == old(store.persisted) + [store.Status()]
    ensures !why.Complete? ==>
              db' == db && store.text == old(store.text) && store.persisted == old(store.persisted)
    ensures fault.Some? && !termux ==> fault.value.TreeStuck? || fault.value.NotTried?
    ensures fault == Some(NotTried) ==> pkg.packageName in db
    ensures !ValidName(pkg.packageName) ==> fault.None? && store.payloads == old(store.payloads)
    ensures var root := InstallRoot(pkg.packageName, rootPackage, termux);
            Free(old(store.payloads), root) && store.unseenLeft == old(store.unseenLeft) ==>
              store.payloads == old(store.payloads) + (if why.Complete? || Stays(fault) then {root} else {})
  {
    hide ValidName, RecordFor, InstallRoot, Prints, StatusFile.Meaning, Free, Within;
    var name := pkg.packageName;
    var root := InstallRoot(name, rootPackage, termux);
    ghost var payloads := store.payloads;
    var verified := store.Try();  // checksum and signature policy
    if !verified {
      return StepFailed(name), db, None;
    }
    if !ValidName(name) {
      return BadEntry(name), db, None;
    }
    var installed;
    installed, fault := store.InstallPayload(name, root, termux, reinstall);
    if Free(payloads, root) {
      OnlyRootChanges(payloads, store.payloads, root);
    }
    if !installed {
      return StepFailed(name), db, fault;
    }
    var ip := RecordFor(pkg, db, rootPackage, termux);
    db' := db[name := ip];
    ghost var filled := store.payloads;
    var written := store.WriteStatus(db');
    if !written {
      fault := Some(NotTried);
      if name !in db {
        var removed;
        removed, fault := store.RemovePayload(root, termux);
        if Free(payloads, root) {
          RootClears(payloads, root);
        }
      }
      return StepFailed(name), db, fault;
    }
    return Complete, db', None;
  }

  /** A failed install with this fault leaves its root. */
  predicate Stays(fault: Option<Fault>) { fault.Some? && fault.value.KeepsRoot() }

  lemma RootClears(payloads: set<string>, root: string)
    requires Free(payloads, root)
    ensures Beside(payloads + {root}, root) == payloads && root !in payloads
  {
    hide Within;
    ItsOwnTree(root);
  }

  datatype InstallOptions = InstallOptions(simulate: bool, reinstall: bool, isTermuxPackage: bool)
  datatype InstallResult = InstallResult(why: InstallWhy, installedPackages: seq<string>, fault: Option<Fault>)
  {
    predicate Ok() { why.Complete? }
  }

  method InstalledNames(db: InstalledDb, termux: bool) returns (names: seq<string>)
    ensures forall n :: n in Elems(names) <==> n in db && db[n].termuxPackage == termux
  {
    names := [];
    var rest := db.Keys;
    while rest != {}
      invariant rest <= db.Keys
      invariant forall n :: n in names <==> n in db && n !in rest && db[n].termuxPackage == termux
    {
      var n :| n in rest;
      if db[n].termuxPackage == termux {
        names := names + [n];
      }
      rest := rest - {n};
    }
  }

  /** Which domain an install works in, decided as the code does. */
  function Mode(pkgs: seq<PackageEntry>, rootPackage: string, asked: bool): bool {
    asked || (Offers(pkgs, rootPackage, true) && !Offers(pkgs, rootPackage, false))
  }

  /** Everything the guarantees of an install rest on: repository dependencies without
      architecture qualifiers, and no planned name installed in the other domain. */
  ghost predicate Suitable(pkgs: seq<PackageEntry>, db: InstalledDb, termux: bool) {
    forall p :: p in InDomain(pkgs, termux) ==>
                  && (p.packageName in db ==> db[p.packageName].termuxPackage == termux)
                  && (forall d :: d in p.depends ==> ':' !in d)
  }

  lemma SuitablePlan(pkgs: seq<PackageEntry>, db: InstalledDb, termux: bool, order: seq<PackageEntry>)
    requires Suitable(pkgs, db, termux) && GoodPlan(order, db, termux)
    requires forall p :: p in order ==> p in InDomain(pkgs, termux)
    ensures NoClash(order, db) && Normalised(order)
  {
  }

  /** The contents written while recording `done`: one database per package. */
  function Steps(db: InstalledDb, done: seq<PackageEntry>, rootPackage: string, termux: bool): seq<InstalledDb> {
    if done == [] then []
    else Steps(db, done[..|done| - 1], rootPackage, termux) + [Recorded(db, done, rootPackage, termux)]
  }

  /** The plan of an install request: what the resolver returns for its domain. */
  ghost predicate PlanFor(pkgs: seq<PackageEntry>, rootPackage: string, db: InstalledDb, termux: bool, order: seq<PackageEntry>) {
    GoodPlan(order, db, termux) && forall p :: p in order ==> p in InDomain(pkgs, termux)
  }

  lemma PlannedEntriesComeFromRepo(repo: Repo, root: string, installed: set<string>, out: Resolution)
    requires repo.Valid() && Exact(repo, root, installed, out)
    ensures forall p :: p in out.installOrder ==> p in repo.list
  {
    forall p | p in out.installOrder
      ensures p in repo.list
    {
      assert repo.Get(p.packageName) == Some(p);
    }
  }

  /** Resolution in the domain: a plan exactly if everything reachable is known and acyclic. */
  method Plan(pkgs: seq<PackageEntry>, rootPackage: string, arch: string, db: InstalledDb, termux: bool)
    returns (ok: bool, order: seq<PackageEntry>, ghost repo: Repo)
    ensures repo.Valid() && SeenIn(repo, InDomain(pkgs, termux), arch, termux)
    ensures ok <==> Resolvable(repo, rootPackage)
    ensures ok ==> PlanFor(pkgs, rootPackage, db, termux, order) && Plans(repo, rootPackage, db, termux, order)
    ensures ok ==> rootPackage in NamesOf(order) || Has(db, rootPackage, termux)
  {
    hide GoodPlan, Exact, SeenFor, SeenByTermux, Incomplete;
    var resolverPkgs := InDomain(pkgs, termux);
    var already := InstalledNames(db, termux);
    var out;
    if termux {
      ok, out, repo := ResolveTermuxDependencies(resolverPkgs, rootPackage, already);
    } else {
      ok, out, repo := ResolveDependencies(resolverPkgs, rootPackage, arch, already);
    }
    order := out.installOrder;
    SeenList(repo, resolverPkgs, arch, termux);
    if repo.Get(rootPackage).Some? {
      SuccessIff(repo, rootPackage, Elems(already), out);
    }
    if ok {
      ResolutionIsGoodPlan(repo, rootPackage, Elems(already), out, db, termux);
      PlannedEntriesComeFromRepo(repo, rootPackage, Elems(already), out);
      ExactPlans(repo, rootPackage, Elems(already), out, db, termux);
    }
  }

  lemma SeenList(repo: Repo, list: seq<PackageEntry>, arch: string, termux: bool)
    requires if termux then SeenByTermux(repo, list) else SeenFor(repo, list, arch)
    ensures SeenIn(repo, list, arch, termux) && repo.list == list
  {
  }

  lemma ExactPlans(repo: Repo, root: string, installed: set<string>, out: Resolution, db: InstalledDb, termux: bool)
    requires repo.Valid() && Exact(repo, root, installed, out) && out.Success()
    requires forall n :: n in installed <==> Has(db, n, termux)
    ensures Plans(repo, root, db, termux, out.installOrder)
    ensures root in NamesOf(out.installOrder) || Has(db, root, termux)
  {
    assert repo.PathFrom([root], root, root);
    assert repo.Reach(root, root);
  }

  /** The disk after `done` saves. */
  twostate predicate Saved(store: Store, done: nat)
    reads store
  {
    && store.unseenLeft <= old(store.unseenLeft)
    && old(store.persisted) <= store.persisted && |store.persisted| == |old(store.persisted)| + done
    && (done == 0 ==> store.text == old(store.text))
  }

  /** What an install that started from db0 has done to the disk when it returns: `done`
      packages of the plan were recorded, one save each. */
  twostate predicate Carried(store: Store, db0: InstalledDb, order: seq<PackageEntry>, done: nat, root: string, termux: bool)
    requires done <= |order|
    reads store
  {
    && Saved(store, done)
    && (done > 0 && store.unseenLeft == old(store.unseenLeft) ==> Prints(store.text, Recorded(db0, order[..done], root, termux)))
    && (StatusFile.Storable(db0) && AllStorable(order) && store.unseenLeft == old(store.unseenLeft) ==>
          && store.Status() == Recorded(db0, order[..done], root, termux)
          && StatusFile.Storable(store.Status())
          && store.persisted == old(store.persisted) + Steps(db0, order[..done], root, termux))
  }

  const EMPTY_REPO := Repo([], Maps("", map[], map[], map[]))

  /** installWithDeps. `done` is the part of the plan that was recorded before the call
      returned, whether it succeeded or failed part-way. Nothing else is known of the plan
      if the status file was cut short unseen. `repo` is the domain as the resolver saw it. */
  method InstallWithDeps(store: Store, indices: seq<Index>, rootPackage: string, arch: string, opts: InstallOptions)
    returns (r: InstallResult, ghost order: seq<PackageEntry>, ghost done: nat, ghost repo: Repo)
    modifies store
    // why it ends
    ensures r.why.BadName? <==> !ValidName(rootPackage)
    ensures r.why.NotOffered? <==>
              ValidName(rootPackage) && !Offered(indices, rootPackage, Domain(indices, rootPackage, opts.isTermuxPackage))
    ensures r.why.NotLoaded? || r.why.FetchFailed? ==> store.failed > old(store.failed)
    ensures repo.Valid()
    ensures r.why.Asked() ==>
              && SeenIn(repo, DomainList(indices, rootPackage, opts), arch, Domain(indices, rootPackage, opts.isTermuxPackage))
              && (r.why.Unresolvable? <==> !Resolvable(repo, rootPackage))
    ensures done <= |order| && (r.Ok() && !opts.simulate ==> done == |order|)
    ensures Halted(store, r.why, order, done, rootPackage, Mode(Merged(indices), rootPackage, opts.isTermuxPackage))
    // the plan, and what is recorded of it
    ensures r.why.Planned() && store.unseenLeft == old(store.unseenLeft) ==>
              Plans(repo, rootPackage, old(store.Status()), Domain(indices, rootPackage, opts.isTermuxPackage), order)
    ensures r.installedPackages == if r.Ok() && opts.simulate then NamesOf(order) else NamesOf(order[..done])
    ensures StatusFile.Storable(old(store.Status())) && AllStorable(order) && store.unseenLeft == old(store.unseenLeft) ==>
              RecordsOf(old(store.Status()), store.Status(), order[..done], rootPackage,
                        Domain(indices, rootPackage, opts.isTermuxPackage))
    ensures var termux := Mode(Merged(indices), rootPackage, opts.isTermuxPackage);
            && Saved(store, done)
            && (store.unseenLeft == old(store.unseenLeft) ==>
                  && PlanFor(Merged(indices), rootPackage, old(store.Status()), termux, order)
                  && Carried(store, old(store.Status()), order, done, rootPackage, termux))
    ensures r.Ok() && !opts.simulate && store.unseenLeft == old(store.unseenLeft) ==>
              var termux := Mode(Merged(indices), rootPackage, opts.isTermuxPackage);
              Has(Recorded(old(store.Status()), order, rootPackage, termux), rootPackage, termux)
    // records and payloads
    ensures var termux := Mode(Merged(indices), rootPackage, opts.isTermuxPackage);
            && Suitable(Merged(indices), old(store.Status()), termux)
            && StatusFile.Storable(old(store.Status())) && AllStorable(order) && store.unseenLeft == old(store.unseenLeft)
            && Placed(old(store.Status())) && Agree(old(store.Status()), old(store.payloads))
            ==> && Placed(store.Status()) && (Agree(store.Status(), store.payloads) <==> !Stays(r.fault))
                && (r.why.StepFailed? ==> store.failed > old(store.failed))
  {
    hide StatusFile.Meaning, StatusFile.Storable, AllStorable, Placed, Agree, Suitable, GoodPlan, Plans, RecordsOf;
    hide ValidName, Offers, Offered, SeenIn, Resolvable, Merged, InDomain, Recorded, Steps, Mode, Domain, NamesOf;
    order, done, repo := [], 0, EMPTY_REPO;
    var pkgs := Merged(indices);
    var termux := Mode(pkgs, rootPackage, opts.isTermuxPackage);
    ModeIsDomain(indices, rootPackage, opts.isTermuxPackage);
    OfferedIff(indices, rootPackage, termux);
    NothingRecorded(store.Status(), order, rootPackage, termux);
    RecordsOfNone(store.Status(), rootPackage, termux);
    EmptyPlan(store.Status(), termux);
    if !ValidName(rootPackage) {
      return InstallResult(BadName, [], None), order, done, repo;
    }
    if !Offers(pkgs, rootPackage, termux) {
      return InstallResult(NotOffered, [], None), order, done, repo;
    }
    ghost var unseen0 := store.unseenLeft;
    var loaded, db := store.LoadStatus();
    if !loaded {
      return InstallResult(NotLoaded, [], None), order, done, repo;
    }
    r, order, done, repo := InstallLoaded(store, pkgs, db, rootPackage, arch, termux, opts, store.unseenLeft == unseen0);
  }

  /** The part of installWithDeps that follows the loading of the database. `exact` tells
      whether db is what the disk holds. */
  method InstallLoaded(store: Store, pkgs: seq<PackageEntry>, db: InstalledDb, rootPackage: string, arch: string,
                       termux: bool, opts: InstallOptions, ghost exact: bool)
    returns (r: InstallResult, ghost order: seq<PackageEntry>, ghost done: nat, ghost repo: Repo)
    requires exact ==> db == store.Status()
    modifies store
    ensures r.why.Asked() && repo.Valid() && SeenIn(repo, InDomain(pkgs, termux), arch, termux)
    ensures r.why.Unresolvable? <==> !Resolvable(repo, rootPackage)
    ensures r.why.FetchFailed? ==> store.failed > old(store.failed)
    ensures done <= |order| && (r.Ok() && !opts.simulate ==> done == |order|)
    ensures Halted(store, r.why, order, done, rootPackage, termux) && Saved(store, done)
    ensures r.installedPackages == if r.Ok() && opts.simulate then NamesOf(order) else NamesOf(order[..done])
    ensures r.why.Planned() ==> Plans(repo, rootPackage, db, termux, order)
    ensures PlanFor(pkgs, rootPackage, db, termux, order)
    ensures RecordsOf(db, Recorded(db, order[..done], rootPackage, termux), order[..done], rootPackage, termux)
    ensures exact ==> Carried(store, db, order, done, rootPackage, termux)
    ensures r.Ok() && !opts.simulate ==> Has(Recorded(db, order, rootPackage, termux), rootPackage, termux)
    ensures && exact && Suitable(pkgs, db, termux) && StatusFile.Storable(db) && AllStorable(order)
            && store.unseenLeft == old(store.unseenLeft)
            && Placed(db) && Agree(db, old(store.payloads))
            ==> && Placed(store.Status()) && (Agree(store.Status(), store.payloads) <==> !Stays(r.fault))
                && (r.why.StepFailed? ==> store.failed > old(store.failed))
  {
    hide StatusFile.Meaning, StatusFile.Storable, AllStorable, Placed, Agree, Suitable, GoodPlan, Plans, RecordsOf;
    hide SeenIn, Resolvable, InDomain, Recorded, Steps, NamesOf, Prints, RecordFor, Has, ValidName;
    order, done := [], 0;
    var planned, plan;
    planned, plan, repo := Plan(pkgs, rootPackage, arch, db, termux);
    NothingRecorded(db, plan, rootPackage, termux);
    EmptyPlan(db, termux);
    if !planned {
      NothingRecorded(db, order, rootPackage, termux);
      PlanIsRecorded(db, order, 0, rootPackage, termux);
      return InstallResult(Unresolvable, [], None), order, done, repo;
    }
    order := plan;
    PlanIsRecorded(db, plan, 0, rootPackage, termux);
    if opts.simulate {
      return InstallResult(Complete, NamesOf(plan), None), order, done, repo;
    }
    var fetched := store.Try();  // every package file is present or downloaded
    if !fetched {
      return InstallResult(FetchFailed, [], None), order, done, repo;
    }
    r, done := InstallPlan(store, pkgs, db, plan, rootPackage, termux, opts.reinstall, exact);
    PlanIsRecorded(db, plan, done, rootPackage, termux);
  }

  /** The list the resolver works on for a request. */
  ghost function DomainList(indices: seq<Index>, rootPackage: string, opts: InstallOptions): seq<PackageEntry> {
    InDomain(Merged(indices), Domain(indices, rootPackage, opts.isTermuxPackage))
  }

  lemma PlanIsRecorded(db: InstalledDb, plan: seq<PackageEntry>, done: nat, root: string, termux: bool)
    requires done <= |plan| && GoodPlan(plan, db, termux)
    ensures RecordsOf(db, Recorded(db, plan[..done], root, termux), plan[..done], root, termux)
    ensures plan[..|plan|] == plan
    ensures root in NamesOf(plan) || Has(db, root, termux) ==> Has(Recorded(db, plan, root, termux), root, termux)
  {
    hide RecordFor, Recorded, RecordsOf;
    RecordedRecords(db, plan, done, root, termux);
    RecordedKeys(db, plan, |plan|, root, termux);
    assert plan[..|plan|] == plan;
  }

  /** How a plan of which `done` packages were recorded may end: a failure of the pass after
      them names its package, and either its name is illegal, or some step reported a failure,
      or its root is in the way. */
  twostate predicate Halted(store: Store, why: InstallWhy, order: seq<PackageEntry>, done: nat, root: string, termux: bool)
    reads store
  {
    && store.failed >= old(store.failed)
    && (why.BadEntry? || why.StepFailed? ==> done < |order| && why.name == order[done].packageName)
    && (why.BadEntry? ==> !ValidName(why.name))
    && (why.StepFailed? ==> store.failed > old(store.failed) || InstallRoot(why.name, root, termux) in store.payloads)
  }

  lemma EmptyPlan(db: InstalledDb, termux: bool)
    ensures GoodPlan([], db, termux)
  {
  }

  lemma NothingRecorded(db: InstalledDb, plan: seq<PackageEntry>, root: string, termux: bool)
    ensures Recorded(db, plan[..0], root, termux) == db && Steps(db, plan[..0], root, termux) == []
    ensures NamesOf(plan[..0]) == []
    ensures PlannedRoots(plan[..0], root, termux) == {}
  {
  }

  lemma OneMoreRecorded(db: InstalledDb, plan: seq<PackageEntry>, i: nat, root: string, termux: bool)
    requires i < |plan|
    ensures var now, next := Recorded(db, plan[..i], root, termux), Recorded(db, plan[..i + 1], root, termux);
            && next == now[plan[i].packageName := RecordFor(plan[i], now, root, termux)]
            && Steps(db, plan[..i + 1], root, termux) == Steps(db, plan[..i], root, termux) + [next]
    ensures PlannedRoots(plan[..i + 1], root, termux) ==
            PlannedRoots(plan[..i], root, termux) + {InstallRoot(plan[i].packageName, root, termux)}
  {
    assert plan[..i + 1][..i] == plan[..i] && plan[..i + 1][i] == plan[i];
  }

  /** What a clean start is for the payloads: db0 agrees with them and clashes with no part of
      the plan. */
  ghost predicate SoundStart(db0: InstalledDb, payloads0: set<string>, plan: seq<PackageEntry>, termux: bool) {
    GoodPlan(plan, db0, termux) && NoClash(plan, db0) && Placed(db0) && Agree(db0, payloads0)
  }

  /** One pass of the install loop, as one more step of its plan. */
  method InstallNext(store: Store, ghost db0: InstalledDb, plan: seq<PackageEntry>, i: nat, db: InstalledDb,
                     rootPackage: string, termux: bool, reinstall: bool, ghost payloads0: set<string>)
    returns (why: InstallWhy, db': InstalledDb, fault: Option<Fault>)
    requires i < |plan| && db == Recorded(db0, plan[..i], rootPackage, termux)
    requires forall j :: 0 <= j < i ==> ValidName(plan[j].packageName)
    modifies store
    ensures store.unseenLeft <= old(store.unseenLeft) && store.failed >= old(store.failed)
    ensures why.Complete? || why == BadEntry(plan[i].packageName) || why == StepFailed(plan[i].packageName)
    ensures why.BadEntry? ==> !ValidName(plan[i].packageName)
    ensures why.StepFailed? ==>
              store.failed > old(store.failed) || InstallRoot(plan[i].packageName, rootPackage, termux) in store.payloads
    ensures why.Complete? ==>
              && ValidName(plan[i].packageName) && db' == Recorded(db0, plan[..i + 1], rootPackage, termux)
              && (store.unseenLeft == old(store.unseenLeft) ==> Prints(store.text, db'))
              && store.persisted == old(store.persisted) + [store.Status()]
    ensures !why.Complete? ==> store.text == old(store.text) && store.persisted == old(store.persisted)
    ensures && SoundStart(db0, payloads0, plan, termux) && store.unseenLeft == old(store.unseenLeft)
            && old(store.payloads) == payloads0 + PlannedRoots(plan[..i], rootPackage, termux)
            ==> if why.Complete? then store.payloads == payloads0 + PlannedRoots(plan[..i + 1], rootPackage, termux)
                else && Placed(db) && (Agree(db, store.payloads) <==> !Stays(fault))
                     && (why.StepFailed? ==> store.failed > old(store.failed))
  {
    hide GoodPlan, NoClash, Placed, Agree, RecordFor, ValidName, Recorded, Steps, PlannedRoots, InstallRoot;
    hide StatusFile.Meaning, Prints, Free;
    OneMoreRecorded(db0, plan, i, rootPackage, termux);
    ghost var sound := SoundStart(db0, payloads0, plan, termux)
                       && store.payloads == payloads0 + PlannedRoots(plan[..i], rootPackage, termux);
    if sound {
      RecordedAgree(db0, payloads0, plan, i, rootPackage, termux);
      if ValidName(plan[i].packageName) {
        NextRootIsFree(db0, payloads0, plan, i, rootPackage, termux);
        RootClears(store.payloads, InstallRoot(plan[i].packageName, rootPackage, termux));
      }
    }
    ghost var before, unseen0 := store.payloads, store.unseenLeft;
    why, db', fault := InstallOne(store, db, plan[i], rootPackage, termux, reinstall);
    if sound && !why.Complete? && store.unseenLeft == unseen0 {
      FaultBreaksAgreement(db, before, store.payloads, InstallRoot(plan[i].packageName, rootPackage, termux), fault);
    }
  }

  /** The install loop. `exact` tells whether db0 is what the disk holds. */
  method InstallPlan(store: Store, ghost pkgs: seq<PackageEntry>, db0: InstalledDb, plan: seq<PackageEntry>,
                     rootPackage: string, termux: bool, reinstall: bool, ghost exact: bool)
    returns (r: InstallResult, ghost done: nat)
    requires (exact ==> db0 == store.Status()) && PlanFor(pkgs, rootPackage, db0, termux, plan)
    modifies store
    ensures done <= |plan| && (r.Ok() ==> done == |plan|)
    ensures r.why.Complete? || r.why.BadEntry? || r.why.StepFailed?
    ensures r.installedPackages == NamesOf(plan[..done])
    ensures Halted(store, r.why, plan, done, rootPackage, termux)
    ensures Saved(store, done) && (exact ==> Carried(store, db0, plan, done, rootPackage, termux))
    ensures && exact && Suitable(pkgs, db0, termux) && StatusFile.Storable(db0) && AllStorable(plan)
            && store.unseenLeft == old(store.unseenLeft)
            && Placed(db0) && Agree(db0, old(store.payloads))
            ==> && Placed(store.Status()) && (Agree(store.Status(), store.payloads) <==> !Stays(r.fault))
                && (r.why.StepFailed? ==> store.failed > old(store.failed))
  {
    hide GoodPlan, Placed, Agree, ValidName, Suitable, InDomain, Recorded, Steps, PlannedRoots, SoundStart;
    hide StatusFile.Meaning, StatusFile.Storable, AllStorable, Prints;
    NothingRecorded(db0, plan, rootPackage, termux);
    ghost var payloads0, unseen0 := store.payloads, store.unseenLeft;
    ghost var sound := Suitable(pkgs, db0, termux) && Placed(db0) && Agree(db0, payloads0);
    ghost var storable := StatusFile.Storable(db0) && AllStorable(plan);
    if sound {
      PlanStartsSound(pkgs, rootPackage, db0, termux, plan, payloads0);
    }
    var db, names := db0, [];
    var i := 0;
    while i < |plan|
      invariant 0 <= i <= |plan|
      invariant db == Recorded(db0, plan[..i], rootPackage, termux)
      invariant store.failed >= old(store.failed) && names == NamesOf(plan[..i])
      invariant Saved(store, i) && (exact ==> Carried(store, db0, plan, i, rootPackage, termux))
      invariant forall j :: 0 <= j < i ==> ValidName(plan[j].packageName)
      invariant sound && store.unseenLeft == unseen0 ==>
                  store.payloads == payloads0 + PlannedRoots(plan[..i], rootPackage, termux)
    {
      var why, next, fault;
      why, next, fault := InstallNext(store, db0, plan, i, db, rootPackage, termux, reinstall, payloads0);
      if !why.Complete? {
        return InstallResult(why, names, fault), i;
      }
      db := next;
      OneMoreStep(db0, plan, i, rootPackage, termux);
      if storable {
        RecordedStorable(db0, plan, i + 1, rootPackage, termux);
        if store.unseenLeft == unseen0 {
          PrintsReads(store.text, db);
        }
      }
      NamesOfNext(plan, i);
      names := names + [plan[i].packageName];
      i := i + 1;
    }
    if sound {
      PlanEndsSound(db0, payloads0, plan, rootPackage, termux);
    }
    assert plan[..i] == plan;
    return InstallResult(Complete, names, None), i;
  }

  lemma OneMoreStep(db: InstalledDb, plan: seq<PackageEntry>, i: nat, root: string, termux: bool)
    requires i < |plan|
    ensures Steps(db, plan[..i + 1], root, termux) == Steps(db, plan[..i], root, termux) + [Recorded(db, plan[..i + 1], root, termux)]
  {
    OneMoreRecorded(db, plan, i, root, termux);
  }

  lemma PlanStartsSound(pkgs: seq<PackageEntry>, root: string, db: InstalledDb, termux: bool, plan: seq<PackageEntry>,
                        payloads: set<string>)
    requires PlanFor(pkgs, root, db, termux, plan) && Suitable(pkgs, db, termux) && Placed(db) && Agree(db, payloads)
    ensures SoundStart(db, payloads, plan, termux)
    ensures payloads + PlannedRoots(plan[..0], root, termux) == payloads
  {
    hide GoodPlan, Placed, Agree, Suitable, InDomain;
    SuitablePlan(pkgs, db, termux, plan);
    NothingRecorded(db, plan, root, termux);
  }

  lemma PlanEndsSound(db: InstalledDb, payloads: set<string>, plan: seq<PackageEntry>, root: string, termux: bool)
    requires SoundStart(db, payloads, plan, termux) && forall j :: 0 <= j < |plan| ==> ValidName(plan[j].packageName)
    ensures Placed(Recorded(db, plan, root, termux))
    ensures Agree(Recorded(db, plan, root, termux), payloads + PlannedRoots(plan, root, termux))
  {
    hide GoodPlan, NoClash, Placed, Agree, Recorded, PlannedRoots, ValidName;
    RecordedAgree(db, payloads, plan, |plan|, root, termux);
    assert plan[..|plan|] == plan;
  }

  /** After a failed pass the payloads are again those on record, unless the root stayed. */
  lemma FaultBreaksAgreement(db: InstalledDb, before: set<string>, after: set<string>, root: string, fault: Option<Fault>)
    requires Agree(db, before)
    requires Free(before, root) ==> after == before + (if Stays(fault) then {root} else {})
    requires !Free(before, root) ==> fault.None? && after == before
    ensures Agree(db, after) <==> !Stays(fault)
  {
    hide Within;
    ItsOwnTree(root);
    if Free(before, root) {
      assert root !in before;
      assert before + {} == before;
    }
  }

  // ----- removal -----

  /** How removePackage ends. After a failed payload removal, `restored` tells whether the
      status entry could be put back, `fault` what made the removal fail. */
  datatype RemoveOutcome =
    | InvalidName
    | LoadFailed
    | NotInstalled
    | Refused(dependents: seq<string>)
    | WriteFailed
    | PayloadFailed(restored: bool, fault: Fault)
    | Removed
  {
    /** If the payload removal failed, the entry was put back, or files stayed behind a Termux
        root that was deleted, but not both. */
    predicate Whole() { PayloadFailed? ==> restored == fault.KeepsRoot() }

    predicate Wrote() { Removed? || PayloadFailed? }
  }

  method FindDependents(db: InstalledDb, name: string) returns (dependents: seq<string>)
    requires name in db
    ensures forall m :: m in dependents ==>
                          m in db && m != name && db[m].termuxPackage == db[name].termuxPackage && name in db[m].depends
    ensures dependents != [] <==> Required(db, name)
  {
    dependents := [];
    var rest := db.Keys;
    while rest != {}
      invariant rest <= db.Keys
      invariant forall m :: m in dependents <==>
                              m in db && m !in rest && m != name &&
                              db[m].termuxPackage == db[name].termuxPackage && name in db[m].depends
    {
      var m :| m in rest;
      rest := rest - {m};
      if m == name || db[m].termuxPackage != db[name].termuxPackage {
        continue;
      }
      for k := 0 to |db[m].depends|
        invariant name !in db[m].depends[..k]
      {
        if db[m].depends[k] == name {
          dependents := dependents + [m];
          break;
        }
      }
    }
    if dependents != [] {
      assert dependents[0] in dependents;
    }
  }

  ghost predicate AllClosed(history: seq<InstalledDb>) {
    forall i :: 0 <= i < |history| ==> Closed(history[i])
  }

  /** The database that is saved last by a removal with this outcome. */
  function AfterRemoval(db: InstalledDb, name: string, r: RemoveOutcome): InstalledDb {
    if r.Removed? || (r.PayloadFailed? && !r.restored) then db - {name} else db
  }

  function PayloadsAfter(db: InstalledDb, name: string, payloads: set<string>, r: RemoveOutcome): set<string>
    requires name in db
  {
    if r.Removed? || (r.PayloadFailed? && !r.fault.KeepsRoot()) then Beside(payloads, RootOf(db[name], name)) else payloads
  }

  /** The databases a removal saves, one after the other. */
  function SavedByRemoval(db: InstalledDb, name: string, r: RemoveOutcome): seq<InstalledDb> {
    if !r.Wrote() then [] else if r.PayloadFailed? && r.restored then [db - {name}, db] else [db - {name}]
  }

  /** removePackage. */
  method RemovePackage(store: Store, name: string, force: bool) returns (r: RemoveOutcome)
    modifies store
    ensures r.InvalidName? <==> !ValidName(name)
    ensures store.failed >= old(store.failed) && (r.LoadFailed? || r.WriteFailed? ==> store.failed > old(store.failed))
    ensures r.NotInstalled? && store.unseenLeft == old(store.unseenLeft) ==> name !in store.Status()
    ensures r.Refused? && store.unseenLeft == old(store.unseenLeft) ==>
              name in old(store.Status()) && !force && Required(old(store.Status()), name)
    ensures (r.WriteFailed? || r.Wrote()) && store.unseenLeft == old(store.unseenLeft) ==>
              name in old(store.Status()) && (force || !Required(old(store.Status()), name))
    ensures store.unseenLeft <= old(store.unseenLeft)
    ensures old(store.persisted) <= store.persisted
    ensures !r.Wrote() ==>
              && store.text == old(store.text) && store.payloads == old(store.payloads)
              && store.persisted == old(store.persisted)
    ensures r.Wrote() && store.unseenLeft == old(store.unseenLeft) ==>
              && Prints(store.text, AfterRemoval(old(store.Status()), name, r))
              && StatusFile.Storable(store.Status())
    ensures r.Wrote() && store.unseenLeft == old(store.unseenLeft) && StatusFile.Storable(old(store.Status())) ==>
              && store.Status() == AfterRemoval(old(store.Status()), name, r)
              && store.persisted == old(store.persisted) + SavedByRemoval(old(store.Status()), name, r)
    ensures r.PayloadFailed? && store.unseenLeft == old(store.unseenLeft) && !old(store.Status())[name].termuxPackage ==>
              r.fault.TreeStuck?
    ensures r.Wrote() && store.unseenLeft == old(store.unseenLeft) && RootOf(old(store.Status())[name], name) in old(store.payloads) ==>
              && (r.PayloadFailed? ==> store.failed > old(store.failed))
              && store.payloads == PayloadsAfter(old(store.Status()), name, old(store.payloads), r)
    ensures && StatusFile.Storable(old(store.Status())) && store.unseenLeft == old(store.unseenLeft)
            && Placed(old(store.Status())) && Agree(old(store.Status()), old(store.payloads))
            ==> Placed(store.Status()) && (Agree(store.Status(), store.payloads) <==> r.Whole())
    ensures && StatusFile.Storable(old(store.Status())) && store.unseenLeft == old(store.unseenLeft)
            && Placed(old(store.Status())) && Agree(old(store.Status()), old(store.payloads))
            && r.Wrote() && !old(store.Status())[name].termuxPackage
            ==> (Agree(store.Status(), store.payloads) <==> (r.PayloadFailed? ==> r.restored))
  {
    hide Placed, Agree, RootOf, Required, ValidName, Prints, StatusFile.Meaning, StatusFile.Storable, Beside;
    if !ValidName(name) {
      return InvalidName;
    }
    ghost var unseen0 := store.unseenLeft;
    var loaded, db := store.LoadStatus();
    ghost var exact := store.unseenLeft == unseen0;
    if !loaded {
      return LoadFailed;
    }
    if name !in db {
      return NotInstalled;
    }
    if !force {
      var dependents := FindDependents(db, name);
      if dependents != [] {
        return Refused(dependents);
      }
    }
    var ip := db[name];
    var without := db - {name};
    ghost var text, payloads := store.text, store.payloads;
    if StatusFile.Storable(db) {
      StorableWithout(db, name);
    }
    var written := store.WriteStatus(without);
    if !written {
      return WriteFailed;
    }
    if store.unseenLeft == old(store.unseenLeft) {
      PrintsReads(store.text, without);
      RemovalSettles(text, db, name, store.text);
    }
    r := DropPayload(store, db, name, text, exact);
    if exact && Placed(db) && Agree(db, payloads) {
      RecordedRoot(db, payloads, name);
      RemovalAgreesIff(db, payloads, name, r);
    }
  }

  /** The rest of removePackage, once the entry is gone: the payload goes too, or the entry is
      put back. */
  method DropPayload(store: Store, db: InstalledDb, name: string, ghost loaded: string, ghost exact: bool)
    returns (r: RemoveOutcome)
    requires name in db && (exact ==> db == StatusFile.Meaning(loaded))
    modifies store
    ensures r.Wrote() && store.unseenLeft <= old(store.unseenLeft) && store.failed >= old(store.failed)
    ensures r.PayloadFailed? && store.unseenLeft == old(store.unseenLeft) && RootOf(db[name], name) in old(store.payloads) ==>
              store.failed > old(store.failed)
    ensures r.PayloadFailed? && !db[name].termuxPackage ==> r.fault.TreeStuck?
    ensures RootOf(db[name], name) in old(store.payloads) && store.unseenLeft == old(store.unseenLeft) ==>
              store.payloads == PayloadsAfter(db, name, old(store.payloads), r)
    ensures !(r.PayloadFailed? && r.restored) ==>
              store.text == old(store.text) && store.persisted == old(store.persisted)
    ensures r.PayloadFailed? && r.restored ==>
              && store.persisted == old(store.persisted) + [store.Status()]
              && (exact && store.unseenLeft == old(store.unseenLeft) ==>
                    && Prints(store.text, db) && StatusFile.Storable(store.Status())
                    && (StatusFile.Storable(db) ==> store.Status() == db))
  {
    hide RootOf, Prints, StatusFile.Meaning, StatusFile.Storable;
    var ip := db[name];
    var removed, fault := store.RemovePayload(RootOf(ip, name), ip.termuxPackage);
    if removed {
      return Removed;
    }
    var restored := store.WriteStatus(db);
    if restored && exact && store.unseenLeft == old(store.unseenLeft) {
      PrintsReads(store.text, db);
      RemovalSettles(loaded, db, name, store.text);
    }
    r := PayloadFailed(restored, fault.value);
  }

  lemma RecordedRoot(db: InstalledDb, payloads: set<string>, name: string)
    requires name in db && Agree(db, payloads)
    ensures RootOf(db[name], name) in payloads
  {
    hide RootOf;
  }

  /** Record and payload have to go together: after a removal that touched the disk they agree
      exactly when both are gone or both are there. */
  lemma RemovalAgreesIff(db: InstalledDb, payloads: set<string>, name: string, r: RemoveOutcome)
    requires name in db && Placed(db) && Agree(db, payloads) && r.Wrote()
    ensures var now, left := AfterRemoval(db, name, r), PayloadsAfter(db, name, payloads, r);
            Placed(now) && (Agree(now, left) <==> r.Whole())
  {
    hide Placed, RootOf, Beside;
    AgreeAfterRemoval(db, payloads, name);
  }

  /** A removal of a package nothing requires saves only closed databases, also when the entry
      has to be put back. */
  lemma RemovalStep(db: InstalledDb, name: string, r: RemoveOutcome, history: seq<InstalledDb>)
    requires name in db && !Required(db, name)
    requires Closed(db) && Keyed(db) && AllClosed(history)
    ensures var now := AfterRemoval(db, name, r); Closed(now) && Keyed(now)
    ensures AllClosed(history + SavedByRemoval(db, name, r))
  {
    if name == "" {
      assert forall n, d :: n in db && Wants(db[n], d) ==> Met(db, db[n], d);
    } else {
      RemovalKeepsClosedIff(db, name);
    }
  }

  // ----- autoremove -----

  datatype AutoremoveOutcome = Done(removed: seq<string>) | Failed(why: RemoveOutcome)

  /** The candidates of one round, in some order. */
  method Orphans(db: InstalledDb) returns (names: seq<string>)
    ensures forall n :: n in names <==> n in db && db[n].autoInstalled && !Required(db, n)
    ensures Distinct(names)
  {
    names := [];
    var rest := db.Keys;
    while rest != {}
      invariant rest <= db.Keys && Distinct(names)
      invariant forall n :: n in names <==> n in db && n !in rest && db[n].autoInstalled && !Required(db, n)
    {
      var n :| n in rest;
      rest := rest - {n};
      if db[n].autoInstalled {
        var dependents := FindDependents(db, n);
        if dependents == [] {
          names := names + [n];
        }
      }
    }
  }

  /** What autoremove keeps true of the database between removals. */
  ghost predicate Shrunk(db0: InstalledDb, db: InstalledDb) {
    && db == Restrict(db0, db.Keys) && db.Keys <= db0.Keys
    && forall t :: Supported(db0, t) ==> t <= db.Keys
  }

  lemma ShrinkByOrphan(db0: InstalledDb, round: InstalledDb, db: InstalledDb, n: string)
    requires Shrunk(db0, round) && Shrunk(db0, db) && db.Keys <= round.Keys
    requires n in db && db[n].autoInstalled && !Required(round, n)
    ensures !Required(db, n) && Shrunk(db0, db - {n})
  {
    assert forall m :: m in db ==> m in round && round[m] == db0[m] == db[m];
    forall t | Supported(db0, t)
      ensures t <= db.Keys - {n}
    {
      assert Restrict(db0, round.Keys) == round;
      OrphanIsUnsupported(db0, round.Keys, n, t);
    }
    assert (db - {n}).Keys == db.Keys - {n};
    assert db - {n} == Restrict(db0, db.Keys - {n});
  }

  lemma NoOrphansIsLargest(db0: InstalledDb, db: InstalledDb)
    requires Shrunk(db0, db)
    requires forall n :: n in db && db[n].autoInstalled ==> Required(db, n)
    ensures Largest(db0, db.Keys)
  {
    forall n | n in db.Keys && db0[n].autoInstalled
      ensures SupportedIn(db0, db.Keys, n)
    {
      assert db[n] == db0[n];
      var m :| m in db && m != n && db[m].termuxPackage == db[n].termuxPackage && n in db[m].depends;
      assert db[m] == db0[m];
    }
  }

  lemma StartShrunk(db: InstalledDb)
    ensures Shrunk(db, db)
  {
  }

  /** A candidate of the round is still an orphan when its turn comes. */
  lemma CandidateStays(db0: InstalledDb, round: InstalledDb, db: InstalledDb, candidates: seq<string>, i: nat)
    requires i < |candidates| && Distinct(candidates)
    requires Shrunk(db0, round) && Shrunk(db0, db) && db.Keys == round.Keys - Elems(candidates[..i])
    requires forall n :: n in candidates ==> n in round && round[n].autoInstalled && !Required(round, n)
    ensures var n := candidates[i]; n in db0 && n in db && !Required(db, n) && Shrunk(db0, db - {n})
  {
    var n := candidates[i];
    assert n in candidates && n !in candidates[..i];
    assert db[n] == db0[n] == round[n];
    ShrinkByOrphan(db0, round, db, n);
  }

  /** The state autoremove maintains, relative to the database it started from. */
  ghost predicate AutoInv(db0: InstalledDb, closed: bool, agreed: bool, status: InstalledDb,
                          payloads: set<string>, persisted: seq<InstalledDb>, removed: seq<string>) {
    && Shrunk(db0, status)
    && (forall n :: n in removed <==> n in db0 && n !in status)
    && (closed ==> Closed(status) && Keyed(status) && AllClosed(persisted))
    && (agreed ==> Placed(status) && Agree(status, payloads))
  }

  /** What is kept during a round: the first i of its candidates are gone. */
  ghost predicate RoundInv(store: Store, db: InstalledDb, candidates: seq<string>, i: nat, db0: InstalledDb,
                           closed: bool, agreed: bool, removed: seq<string>)
    requires i <= |candidates|
    reads store
  {
    && AutoInv(db0, closed, agreed, store.Status(), store.payloads, store.persisted, removed)
    && StatusFile.Storable(store.Status()) && store.Status().Keys == db.Keys - Elems(candidates[..i])
  }

  /** What is left after a removal of the round failed. */
  ghost predicate FailedInv(store: Store, db: InstalledDb, db0: InstalledDb, closed: bool, agreed: bool, why: RemoveOutcome)
    reads store
  {
    && (why.LoadFailed? || why.WriteFailed? || why.PayloadFailed? || why.InvalidName?)
    && (why.InvalidName? ==> exists n :: n in db && !ValidName(n))
    && StatusFile.Storable(store.Status())
    && AutoInv(db0, closed, agreed && why.Whole(), store.Status(), store.payloads, store.persisted,
               Missing(db0, store.Status()))
    && (agreed && !why.Whole() ==> Placed(store.Status()) && !Agree(store.Status(), store.payloads))
  }

  lemma NoneRemoved(db: InstalledDb, candidates: seq<string>)
    ensures db.Keys - Elems(candidates[..0]) == db.Keys
  {
  }

  /** One candidate of a round. A `steady` call is one in a database that started storable and
      whose reads and saves were complete since. */
  method RemoveCandidate(store: Store, ghost db: InstalledDb, candidates: seq<string>, i: nat, force: bool,
                         removed0: seq<string>, ghost db0: InstalledDb, ghost closed: bool, ghost agreed: bool,
                         ghost steady: bool)
    returns (outcome: RemoveOutcome, removed: seq<string>)
    requires i < |candidates| && Distinct(candidates)
    requires forall n :: n in candidates ==> n in db && db[n].autoInstalled && !Required(db, n)
    requires steady ==> Shrunk(db0, db) && RoundInv(store, db, candidates, i, db0, closed, agreed, removed0)
    modifies store
    ensures store.unseenLeft <= old(store.unseenLeft) && old(store.persisted) <= store.persisted
    ensures store.failed >= old(store.failed)
    ensures outcome.LoadFailed? || outcome.WriteFailed? ==> store.failed > old(store.failed)
    ensures steady && agreed && store.unseenLeft == old(store.unseenLeft) && outcome.PayloadFailed? ==>
              store.failed > old(store.failed)
    ensures !outcome.Wrote() ==> store.text == old(store.text)
    ensures outcome.Wrote() && store.unseenLeft == old(store.unseenLeft) ==> StatusFile.Storable(store.Status())
    ensures outcome.Removed? && store.unseenLeft == old(store.unseenLeft) && StatusFile.Storable(old(store.Status())) ==>
              candidates[i] in old(store.Status()) && store.Status() == old(store.Status()) - {candidates[i]}
    ensures steady && store.unseenLeft == old(store.unseenLeft) ==>
              if outcome.Removed? then RoundInv(store, db, candidates, i + 1, db0, closed, agreed, removed)
              else FailedInv(store, db, db0, closed, agreed, outcome)
  {
    hide Shrunk, Closed, Keyed, AllClosed, Placed, Agree, Required, ValidName, RootOf;
    hide StatusFile.Storable, StatusFile.Meaning, Prints, SavedByRemoval, PayloadsAfter, Beside;
    var name := candidates[i];
    removed := removed0;
    ghost var now, history, unseen0 := store.Status(), store.persisted, store.unseenLeft;
    if steady {
      CandidateStays(db0, db, now, candidates, i);
      if agreed {
        RecordedRoot(now, store.payloads, name);
      }
    }
    outcome := RemovePackage(store, name, force);
    if steady && closed && store.unseenLeft == unseen0 && outcome.Wrote() {
      RemovalStep(now, name, outcome, history);
    }
    assert name in candidates && candidates[..i + 1] == candidates[..i] + [name];
    if outcome.Removed? && name !in removed {
      removed := removed + [name];
    }
  }

  /** The inner loop of autoremove: every candidate of the round is removed. `exact` tells
      whether db is what the disk holds; the clauses on db0 speak of a database that started
      storable and of which nothing went wrong unseen since. */
  method RemoveCandidates(store: Store, db: InstalledDb, candidates: seq<string>, force: bool, removed0: seq<string>,
                          ghost db0: InstalledDb, ghost closed: bool, ghost agreed: bool, ghost unseen0: nat, ghost exact: bool)
    returns (failure: Option<RemoveOutcome>, removedAny: bool, removed: seq<string>)
    requires candidates != [] && Distinct(candidates)
    requires (exact ==> db == store.Status()) && (store.unseenLeft == unseen0 ==> exact)
    requires forall n :: n in candidates <==> n in db && db[n].autoInstalled && !Required(db, n)
    requires store.unseenLeft <= unseen0
    requires StatusFile.Storable(db0) && store.unseenLeft == unseen0 ==>
               && AutoInv(db0, closed, agreed, store.Status(), store.payloads, store.persisted, removed0)
               && StatusFile.Storable(db)
    modifies store
    ensures store.unseenLeft <= old(store.unseenLeft) && old(store.persisted) <= store.persisted
    ensures store.failed >= old(store.failed)
    ensures failure.Some? && (failure.value.LoadFailed? || failure.value.WriteFailed?) ==> store.failed > old(store.failed)
    ensures && StatusFile.Storable(db0) && store.unseenLeft == unseen0 && agreed && failure.Some? && failure.value.PayloadFailed?
            ==> store.failed > old(store.failed)
    ensures failure.None? && removedAny && exact && store.unseenLeft == old(store.unseenLeft) ==>
              StatusFile.Storable(store.Status()) && (StatusFile.Storable(db) ==> store.Status().Keys < db.Keys)
    ensures StatusFile.Storable(db0) && store.unseenLeft == unseen0 ==> StatusFile.Storable(store.Status())
    ensures StatusFile.Storable(db0) && store.unseenLeft == unseen0 && failure.None? ==>
              && removedAny
              && AutoInv(db0, closed, agreed, store.Status(), store.payloads, store.persisted, removed)
    ensures StatusFile.Storable(db0) && store.unseenLeft == unseen0 && failure.Some? ==>
              FailedInv(store, db, db0, closed, agreed, failure.value)
  {
    hide Shrunk, Closed, Keyed, AllClosed, Placed, Agree, Required, ValidName, RootOf;
    hide StatusFile.Storable, StatusFile.Meaning, Prints, SavedByRemoval;
    removedAny, removed := false, removed0;
    NoneRemoved(db, candidates);
    var i := 0;
    while i < |candidates|
      invariant store.failed >= old(store.failed)
      invariant 0 <= i <= |candidates| && store.unseenLeft <= old(store.unseenLeft) && old(store.persisted) <= store.persisted
      invariant exact && store.unseenLeft == old(store.unseenLeft) && (StatusFile.Storable(db) || removedAny) ==>
                  StatusFile.Storable(store.Status())
      invariant exact && store.unseenLeft == old(store.unseenLeft) && StatusFile.Storable(db) ==>
                  store.Status().Keys <= db.Keys && (removedAny ==> store.Status().Keys < db.Keys)
      invariant StatusFile.Storable(db0) && store.unseenLeft == unseen0 ==>
                  && RoundInv(store, db, candidates, i, db0, closed, agreed, removed)
                  && (removedAny <==> i > 0)
    {
      var name := candidates[i];
      var outcome;
      outcome, removed := RemoveCandidate(store, db, candidates, i, force, removed, db0, closed, agreed,
                                          StatusFile.Storable(db0) && store.unseenLeft == unseen0);
      if !outcome.Removed? && !outcome.NotInstalled? {
        return Some(outcome), removedAny, removed;
      }
      removedAny := removedAny || outcome.Removed?;
      assert candidates[..i + 1] == candidates[..i] + [name];
      i := i + 1;
    }
    assert candidates[0] in candidates && candidates[..i] == candidates;
    failure := None;
  }

  /** Names of db0 that db no longer holds, in some order. */
  ghost function Missing(db0: InstalledDb, db: InstalledDb): (r: seq<string>)
    ensures forall n :: n in r <==> n in db0 && n !in db
  {
    Listed(db0.Keys - db.Keys)
  }

  ghost function Listed(s: set<string>): (r: seq<string>)
    ensures forall n :: n in r <==> n in s
  {
    if s == {} then [] else var n :| n in s; [n] + Listed(s - {n})
  }

  /** autoremove. It always terminates. On a storable database, while saves are complete: when
      it succeeds, what is left is the largest part of the database in which every
      auto-installed package is required by another member, whatever order the rounds visit
      their candidates in; no removal is ever refused. */
  method Autoremove(store: Store, force: bool) returns (r: AutoremoveOutcome)
    modifies store
    ensures store.unseenLeft <= old(store.unseenLeft) && old(store.persisted) <= store.persisted
    ensures r.Failed? && (r.why.LoadFailed? || r.why.WriteFailed?) ==> store.failed > old(store.failed)
    ensures StatusFile.Storable(old(store.Status())) && store.unseenLeft == old(store.unseenLeft) ==>
              && StatusFile.Storable(store.Status())
              && Shrunk(old(store.Status()), store.Status())
              && (r.Done? ==> Largest(old(store.Status()), store.Status().Keys))
              && (r.Done? ==> forall n :: n in r.removed <==> n in old(store.Status()) && n !in store.Status())
              && (r.Failed? ==> r.why.LoadFailed? || r.why.WriteFailed? || r.why.PayloadFailed? || r.why.InvalidName?)
              && (r == Failed(InvalidName) ==> exists n :: n in old(store.Status()) && !ValidName(n))
              && (Closed(old(store.Status())) && Keyed(old(store.Status())) && AllClosed(old(store.persisted))
                  ==> Closed(store.Status()) && Keyed(store.Status()) && AllClosed(store.persisted))
              && (Placed(old(store.Status())) && Agree(old(store.Status()), old(store.payloads))
                  ==> && Placed(store.Status()) && (Agree(store.Status(), store.payloads) <==> (r.Failed? ==> r.why.Whole()))
                      && (r.Failed? ==> r.why.InvalidName? || store.failed > old(store.failed)))
  {
    hide Largest, Closed, Keyed, AllClosed, Placed, Agree, Required, ValidName;
    hide StatusFile.Storable, StatusFile.Meaning, Prints;
    ghost var db0, unseen0 := store.Status(), store.unseenLeft;
    ghost var closed := Closed(db0) && Keyed(db0) && AllClosed(store.persisted);
    ghost var agreed := Placed(db0) && Agree(db0, store.payloads);
    StartShrunk(db0);
    var removed: seq<string> := [];
    while true
      invariant store.failed >= old(store.failed)
      invariant store.unseenLeft <= unseen0 && old(store.persisted) <= store.persisted
      invariant StatusFile.Storable(db0) && store.unseenLeft == unseen0 ==>
                  && AutoInv(db0, closed, agreed, store.Status(), store.payloads, store.persisted, removed)
                  && StatusFile.Storable(store.Status())
      decreases store.unseenLeft, if StatusFile.Storable(store.Status()) then 0 else 1, store.Status().Keys
    {
      ghost var unseen1 := store.unseenLeft;
      var loaded, db := store.LoadStatus();
      if !loaded {
        return Failed(LoadFailed);
      }
      var candidates := Orphans(db);
      if candidates == [] {
        assert forall n :: n in db && db[n].autoInstalled && !Required(db, n) ==> n in candidates;
        if StatusFile.Storable(db0) && store.unseenLeft == unseen0 {
          NoOrphansIsLargest(db0, db);
        }
        return Done(removed);
      }
      var failure, removedAny;
      failure, removedAny, removed := RemoveCandidates(store, db, candidates, force, removed, db0, closed, agreed,
                                                       unseen0, store.unseenLeft == unseen1);
      if failure.Some? {
        return Failed(failure.value);
      }
      if !removedAny {
        return Done(removed);
      }
    }
  }

  // ----- runs -----

  datatype Op =
    | Install(indices: seq<Index>, package: string, arch: string, opts: InstallOptions)
    | Remove(name: string)
    | AutoremoveAll

  /** Repository and database agree on which names are Termux packages. */
  ghost predicate OneDomainPerName(db: InstalledDb, termuxNames: set<string>) {
    forall n :: n in db ==> (db[n].termuxPackage <==> n in termuxNames)
  }

  /** Every entry is of the domain of its name and survives the status file. */
  ghost predicate CleanRepo(indices: seq<Index>, termuxNames: set<string>) {
    && AllStorable(Merged(indices))
    && forall p :: p in Merged(indices) ==> (p.isTermuxPackage <==> p.packageName in termuxNames)
  }

  lemma RepoIsStorable(indices: seq<Index>, termuxNames: set<string>)
    requires CleanRepo(indices, termuxNames)
    ensures AllStorable(Merged(indices))
  {
  }

  lemma CleanIsSuitable(indices: seq<Index>, termuxNames: set<string>, db: InstalledDb, termux: bool)
    requires CleanRepo(indices, termuxNames) && OneDomainPerName(db, termuxNames)
    ensures Suitable(Merged(indices), db, termux)
  {
    forall p, d | p in InDomain(Merged(indices), termux) && d in p.depends
      ensures ':' !in d
    {
      assert EntryStorable(p) && Depends.CleanName(d) && !Depends.NameChar(':');
    }
  }

  /** Every database written while a clean plan is carried out is closed. */
  lemma {:induction false} StepsClosed(db: InstalledDb, history: seq<InstalledDb>, order: seq<PackageEntry>, done: nat,
                                       root: string, termux: bool)
    requires done <= |order| && GoodPlan(order, db, termux) && NoClash(order, db) && Normalised(order)
    requires Closed(db) && Keyed(db) && AllClosed(history)
    ensures AllClosed(history + Steps(db, order[..done], root, termux))
  {
    hide GoodPlan, NoClash, Normalised, Closed, Keyed, Recorded, RecordFor, AllClosed, Steps;
    NothingRecorded(db, order, root, termux);
    if done > 0 {
      StepsClosed(db, history, order, done - 1, root, termux);
      RecordedClosed(db, order, done, root, termux);
      OneMoreRecorded(db, order, done - 1, root, termux);
      AllClosedAppend(history, Steps(db, order[..done - 1], root, termux), Recorded(db, order[..done], root, termux));
    } else {
      assert history + [] == history;
    }
  }

  lemma AllClosedAppend(history: seq<InstalledDb>, steps: seq<InstalledDb>, db: InstalledDb)
    requires AllClosed(history + steps) && Closed(db)
    ensures AllClosed(history + (steps + [db]))
  {
    assert history + (steps + [db]) == (history + steps) + [db];
  }

  lemma PlannedNamesInDomain(indices: seq<Index>, termuxNames: set<string>, order: seq<PackageEntry>, done: nat, termux: bool)
    requires CleanRepo(indices, termuxNames) && done <= |order|
    requires forall p :: p in order ==> p in InDomain(Merged(indices), termux)
    ensures forall n :: n in NamesOf(order[..done]) ==> (termux <==> n in termuxNames)
  {
    forall n | n in NamesOf(order[..done])
      ensures termux <==> n in termuxNames
    {
      var k :| 0 <= k < done && NamesOf(order[..done])[k] == n;
      assert order[k] in order && order[k] in InDomain(Merged(indices), termux);
    }
  }

  /** An install, complete or cut short, keeps everything a run relies on. */
  lemma InstallKeeps(indices: seq<Index>, termuxNames: set<string>, db: InstalledDb, history: seq<InstalledDb>,
                     order: seq<PackageEntry>, done: nat, root: string, termux: bool)
    requires CleanRepo(indices, termuxNames) && OneDomainPerName(db, termuxNames)
    requires Closed(db) && Keyed(db) && AllClosed(history)
    requires PlanFor(Merged(indices), root, db, termux, order) && done <= |order|
    ensures var now := Recorded(db, order[..done], root, termux);
            Closed(now) && Keyed(now) && OneDomainPerName(now, termuxNames)
    ensures AllClosed(history + Steps(db, order[..done], root, termux))
  {
    hide CleanRepo, Closed, Keyed, AllClosed, Recorded, Steps, GoodPlan, Suitable, NoClash, Normalised, InDomain, Merged;
    CleanIsSuitable(indices, termuxNames, db, termux);
    SuitablePlan(Merged(indices), db, termux, order);
    RecordedClosed(db, order, done, root, termux);
    RecordedKeys(db, order, done, root, termux);
    PlannedNamesInDomain(indices, termuxNames, order, done, termux);
    StepsClosed(db, history, order, done, root, termux);
  }

  lemma PlanIsStorable(pkgs: seq<PackageEntry>, root: string, db: InstalledDb, termux: bool, order: seq<PackageEntry>)
    requires AllStorable(pkgs) && PlanFor(pkgs, root, db, termux, order)
    ensures AllStorable(order)
  {
    hide EntryStorable, GoodPlan;
    forall p | p in order
      ensures EntryStorable(p)
    {
      assert p in InDomain(pkgs, termux);
    }
  }

  /** What every step of a run keeps true of the disk. */
  ghost predicate Steady(store: Store, termuxNames: set<string>)
    reads store
  {
    && StatusFile.Storable(store.Status()) && Closed(store.Status()) && Keyed(store.Status())
    && AllClosed(store.persisted) && OneDomainPerName(store.Status(), termuxNames)
  }

  /** Any sequence of installs, removals without force and autoremoves, each cut short by
      arbitrary faults: while no read or save of the status file is cut short unseen, every
      status file ever written reads back as a dependency-closed database; and while no
      cleanup, restoring save or Termux file removal fails (`clean`), the recorded packages are
      exactly those with a payload on disk. */
  method Run(store: Store, ops: seq<Op>, ghost termuxNames: set<string>) returns (clean: bool)
    requires Steady(store, termuxNames)
    requires forall op :: op in ops && op.Install? ==> CleanRepo(op.indices, termuxNames)
    modifies store
    ensures store.unseenLeft <= old(store.unseenLeft) && old(store.persisted) <= store.persisted
    ensures store.unseenLeft == old(store.unseenLeft) ==> Steady(store, termuxNames)
    ensures && store.unseenLeft == old(store.unseenLeft) && clean
            && Placed(old(store.Status())) && Agree(old(store.Status()), old(store.payloads))
            ==> Placed(store.Status()) && Agree(store.Status(), store.payloads)
  {
    hide Closed, Keyed, AllClosed, CleanRepo, PlanFor, Recorded, Steps, Required, Placed, Agree, Suitable, RootOf, AllStorable;
    hide StatusFile.Storable, StatusFile.Meaning, Prints, Largest;
    ghost var agreed := Placed(store.Status()) && Agree(store.Status(), store.payloads);
    clean := true;
    for i := 0 to |ops|
      invariant store.unseenLeft <= old(store.unseenLeft) && old(store.persisted) <= store.persisted
      invariant store.unseenLeft == old(store.unseenLeft) ==> Steady(store, termuxNames)
      invariant store.unseenLeft == old(store.unseenLeft) && clean && agreed ==>
                  Placed(store.Status()) && Agree(store.Status(), store.payloads)
    {
      ghost var db, history, steady := store.Status(), store.persisted, store.unseenLeft == old(store.unseenLeft);
      var op := ops[i];
      assert op in ops;
      match op {
        case Install(indices, package, arch, opts) =>
          ghost var termux := Mode(Merged(indices), package, opts.isTermuxPackage);
          var r, order, done, _ := InstallWithDeps(store, indices, package, arch, opts);
          if steady && store.unseenLeft == old(store.unseenLeft) {
            CleanIsSuitable(indices, termuxNames, db, termux);
            RepoIsStorable(indices, termuxNames);
            PlanIsStorable(Merged(indices), package, db, termux, order);
            InstallKeeps(indices, termuxNames, db, history, order, done, package, termux);
          }
          clean := clean && !Stays(r.fault);
        case Remove(name) =>
          var r := RemovePackage(store, name, false);
          if steady && r.Wrote() && store.unseenLeft == old(store.unseenLeft) {
            RemovalStep(db, name, r, history);
          }
          clean := clean && r.Whole();
        case AutoremoveAll =>
          var r := Autoremove(store, false);
          clean := clean && (r.Failed? ==> r.why.Whole());
      }
    }
  }

  // ----- payloads without a record, and a record without its payload -----

  const TERMUX_VIM := PackageEntry("vim", "1", "all", [], true, "", "", "")

  function VimRoot(): string { InstallRoot("vim", "vim", true) }

  function VimOnly(): InstalledDb { Recorded(map[], [TERMUX_VIM], "vim", true) }

  lemma VimFacts()
    ensures EntryStorable(TERMUX_VIM) && ValidName("vim")
    ensures VimOnly() == map["vim" := RecordFor(TERMUX_VIM, map[], "vim", true)]
    ensures RootOf(RecordFor(TERMUX_VIM, map[], "vim", true), "vim") == VimRoot()
  {
    hide Text.Trim;
    Text.TrimIdIff("1");
    Text.TrimIdIff("all");
    Text.TrimIdIff("");
    assert [TERMUX_VIM][..0] == [] && Recorded(map[], [TERMUX_VIM][..0], "vim", true) == map[];
  }

  lemma VimIsSound()
    ensures StatusFile.Storable(VimOnly()) && Placed(VimOnly()) && Agree(VimOnly(), {VimRoot()})
    ensures !Required(VimOnly(), "vim") && !Agree(VimOnly(), {}) && VimOnly()["vim"].termuxPackage
    ensures RootOf(VimOnly()["vim"], "vim") == VimRoot() && Beside({VimRoot()}, VimRoot()) == {}
  {
    hide EntryStorable, ValidName, RecordFor, Recorded, InstallRoot, StatusFile.WellFormed, Standard, RootOf, Within;
    VimFacts();
    var db, p := VimOnly(), RecordFor(TERMUX_VIM, map[], "vim", true);
    RecordForFields(TERMUX_VIM, map[], "vim", true);
    RecordIsWellFormed(TERMUX_VIM, map[], "vim", true);
    InstallRootIsStandard("vim", "vim", true);
    ItsOwnTree(VimRoot());
    assert "vim" in db && db["vim"] == p && RootOf(db["vim"], "vim") in Roots(db);
    assert Roots(db) == {VimRoot()};
  }

  /** A Termux removal that fails on one payload file: the install root is deleted all the
      same, the entry is put back, and the record no longer has a payload. */
  method HalfRemoved() returns (store: Store, recorded: bool, r: RemoveOutcome)
    ensures recorded && r == PayloadFailed(true, FilesLeft) ==>
              store.Status() == VimOnly() && store.payloads == {} && !Agree(store.Status(), store.payloads)
    ensures recorded && r == PayloadFailed(true, TreeStuck) ==> Agree(store.Status(), store.payloads)
  {
    hide RecordFor, Recorded, InstallRoot, StatusFile.Storable, StatusFile.Meaning, Prints, Placed, Agree, RootOf, Beside;
    VimIsSound();
    store := new Store(0);
    recorded := store.WriteStatus(Recorded(map[], [TERMUX_VIM], "vim", true));
    if recorded {
      PrintsReads(store.text, VimOnly());
    }
    store.payloads := {InstallRoot("vim", "vim", true)};
    r := RemovePackage(store, "vim", false);
  }

  /** A Termux package without files whose fresh root cannot be given its mode: the install
      fails, and nothing clears the root. */
  method StrayRoot() returns (store: Store, why: InstallWhy, fault: Option<Fault>)
    ensures fault == Some(ModeNotSet) ==>
              why == StepFailed("vim") && store.payloads == {VimRoot()} && !Agree(map[], store.payloads)
    ensures !why.Complete? && fault.None? ==> Agree(map[], store.payloads)
  {
    hide RecordFor, InstallRoot, StatusFile.Meaning, Prints, ValidName, Agree, Free;
    NoPayloads(VimRoot());
    store := new Store(0);
    var db;
    why, db, fault := InstallOne(store, map[], TERMUX_VIM, "vim", true, false);
    ghost var none: set<string> := {};
    assert none + {} == none && none + {VimRoot()} == {VimRoot()};
  }

  lemma NoPayloads(root: string)
    ensures Free({}, root) && Agree(map[], {}) && !Agree(map[], {root})
  {
    hide RootOf;
    assert Roots(map[]) == {} && root in {root};
  }

  // ----- a name taken over by the other domain -----

  const DEBIAN_APP := InstalledPackage("app", "1", "all", "", "", "", "", "", "", ["libx"], false, false)
  const DEBIAN_LIBX := InstalledPackage("libx", "1", "all", "", "", "", "", "", "", [], true, false)
  const TERMUX_LIBX := PackageEntry("libx", "2", "all", [], true, "", "", "")

  /** Installing the Termux package of a name that a Debian package depends on: the plan is
      good, and the record it replaces leaves the Debian package without its dependency. */
  lemma TakenNameOpens()
    ensures var db := map["app" := DEBIAN_APP, "libx" := DEBIAN_LIBX];
            && Closed(db) && Keyed(db) && GoodPlan([TERMUX_LIBX], db, true)
            && !Closed(Recorded(db, [TERMUX_LIBX], "libx", true))
  {
    hide InstallRoot, DependencyReady;
    var db := map["app" := DEBIAN_APP, "libx" := DEBIAN_LIBX];
    assert NamesOf([TERMUX_LIBX]) == ["libx"];
    assert [TERMUX_LIBX][..0] == [] && Recorded(db, [], "libx", true) == db;
    var p := RecordFor(TERMUX_LIBX, db, "libx", true);
    assert Recorded(db, [TERMUX_LIBX], "libx", true) == db["libx" := p];
    assert DEBIAN_APP.depends[0] == "libx" && Wants(db["app"], "libx");
    assert StolenFrom(db, p);
    RecordingKeepsClosedIff(db, p);
  }

  // ----- a repository entry that opens the database -----

  /** An entry whose version goes on with a continuation line, as index files may have it. */
  const SPLIT_ENTRY := PackageEntry("vim", "1\nDepends: libx", "all", [], false, "", "", "")

  lemma OneRecorded()
    ensures var p := RecordFor(SPLIT_ENTRY.(version := "1"), map[], "vim", false);
            && Recorded(map[], [SPLIT_ENTRY], "vim", false) == map["vim" := StatusSettles.Hiding(p, "libx")]
            && p.name == "vim" && p.version == "1" && p.depends == []
  {
    hide InstallRoot;
    assert [SPLIT_ENTRY][..0] == [] && Recorded(map[], [SPLIT_ENTRY][..0], "vim", false) == map[];
    assert "1\nDepends: libx" == "1" + "\nDepends: " + "libx";
  }

  lemma SplitEntryFacts()
    ensures EntryStorable(SPLIT_ENTRY.(version := "1")) && !EntryStorable(SPLIT_ENTRY)
    ensures ValidName("vim") && Depends.CleanName("libx")
  {
    hide Text.Trim;
    Text.TrimIdIff("1");
    Text.TrimIdIff("all");
    Text.TrimIdIff("");
    assert SPLIT_ENTRY.version[1] == '\n';
  }

  lemma OnlyOrder(order: seq<string>, db: InstalledDb, n: string)
    requires StatusFile.Enumerates(order, db) && db.Keys == {n}
    ensures order == [n]
  {
    assert n in db.Keys && n in order;
    forall i | 0 <= i < |order|
      ensures order[i] == n
    {
      assert order[i] in order && order[i] in db.Keys;
    }
    FirstTwoDiffer(order, db);
  }

  lemma FirstTwoDiffer(order: seq<string>, db: InstalledDb)
    requires StatusFile.Enumerates(order, db)
    ensures |order| > 1 ==> order[0] != order[1]
  {
  }

  /** Why entries have to be storable: the recorded database is closed, and what its save reads
      back as is not, because the continuation line comes back as a dependency. */
  lemma SplitFieldOpens(text: string)
    requires Prints(text, Recorded(map[], [SPLIT_ENTRY], "vim", false))
    ensures Closed(Recorded(map[], [SPLIT_ENTRY], "vim", false)) && !Closed(StatusFile.Meaning(text))
    ensures !EntryStorable(SPLIT_ENTRY)
  {
    hide StatusFile.Meaning, StatusFile.WellFormed, Depends.CleanName, ValidName, RecordFor, Recorded, EntryStorable;
    hide StatusFile.DbLines, Text.Unlines;
    var plain := SPLIT_ENTRY.(version := "1");
    var p := RecordFor(plain, map[], "vim", false);
    var db := Recorded(map[], [SPLIT_ENTRY], "vim", false);
    OneRecorded();
    SplitEntryFacts();
    RecordIsWellFormed(plain, map[], "vim", false);
    StatusSettles.HiddenDependency(p, "libx");
    var order :| SavedIn(text, db, order);
    OnlyOrder(order, db, "vim");
    var now := StatusFile.Meaning(text);
    assert now["vim"].depends == ["libx"] && now["vim"].name == "vim" && Wants(now["vim"], "libx") && "libx" !in now;
  }
}
