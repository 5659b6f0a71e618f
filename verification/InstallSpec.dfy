/** What a caller of an install is promised, in terms of the indices, the request and the
    records: which domain it works in, when it is refused, and what it records. */
module InstallSpec {
  import opened Wrappers
  import opened RepoIndex
  import opened Dependency
  import opened StatusDb
  import opened Lifecycle

  /** An index lists the name in the domain. */
  ghost predicate Offered(indices: seq<Index>, name: string, termux: bool) {
    exists i, k :: 0 <= i < |indices| && 0 <= k < |indices[i].packages| && OffersAt(indices, i, k, name, termux)
  }

  ghost predicate OffersAt(indices: seq<Index>, i: nat, k: nat, name: string, termux: bool)
    requires i < |indices| && k < |indices[i].packages|
  {
    && indices[i].packages[k].packageName == name
    && (indices[i].termux || indices[i].packages[k].isTermuxPackage) == termux
  }

  /** The domain of a request: Termux if asked for, or if only Termux indices list the name. */
  ghost predicate Domain(indices: seq<Index>, name: string, asked: bool) {
    asked || (Offered(indices, name, true) && !Offered(indices, name, false))
  }

  /** The root is known to the resolver, and nothing reachable from it is unknown or on a cycle. */
  ghost predicate Resolvable(repo: Repo, root: string)
    requires repo.Valid()
  {
    repo.Get(root).Some? && !repo.CyclicFrom(root) && !Incomplete(repo, root)
  }

  /** The lookup of the resolver over a list of entries. */
  ghost predicate SeenIn(repo: Repo, list: seq<PackageEntry>, arch: string, termux: bool) {
    if termux then SeenByTermux(repo, list) else SeenFor(repo, list, arch)
  }

  ghost predicate Has(db: InstalledDb, n: string, termux: bool) {
    n in db && db[n].termuxPackage == termux
  }

  /** The plan holds exactly what is reachable and not installed in the domain, each name
      once, as the resolver finds it, and after its dependencies. */
  ghost predicate Plans(repo: Repo, root: string, db: InstalledDb, termux: bool, order: seq<PackageEntry>)
    requires repo.Valid()
  {
    var names := NamesOf(order);
    && Distinct(names)
    && (forall n :: n in names <==> repo.Reach(root, n) && !Has(db, n, termux))
    && (forall p :: p in order ==> repo.Get(p.packageName) == Some(p))
    && (forall i, d :: 0 <= i < |names| && repo.Edge(names[i], d) && !Has(db, d, termux) ==> d in names[..i])
  }

  /** rec is what has to be recorded for an entry installed on behalf of root: the fields of
      the entry, the root of its kind, and automatic unless it was asked for or an earlier
      record was manual. */
  ghost predicate Describes(rec: InstalledPackage, p: PackageEntry, db: InstalledDb, root: string, termux: bool) {
    var n := p.packageName;
    && rec.name == n && rec.version == p.version && rec.architecture == p.architecture
    && rec.repoUri == p.repoUri && rec.repoDist == p.repoDist && rec.repoComponent == p.repoComponent
    && rec.depends == p.depends && rec.termuxPackage == termux && rec.status == "install ok installed"
    && (termux ==> rec.installRoot == TERMUX_INSTALLED_DIR + "/" + n)
    && (!termux && n == root ==> rec.installRoot == COMMANDS_DIR + "/" + n)
    && (!termux && n != root ==> rec.installRoot == DEPENDENCIES_DIR + "/" + n)
    && rec.installPrefix == (if termux then INSTALLED_DIR + "/termux/usr" else "")
    && (rec.autoInstalled <==> n != root && !(n in db && !db[n].autoInstalled))
  }

  /** now has a record for every entry of `done`, and those of db for all other names. */
  ghost predicate RecordsOf(db: InstalledDb, now: InstalledDb, done: seq<PackageEntry>, root: string, termux: bool) {
    && (forall k :: 0 <= k < |done| ==>
          done[k].packageName in now && Describes(now[done[k].packageName], done[k], db, root, termux))
    && (forall n :: n !in NamesOf(done) ==> (n in now <==> n in db) && (n in now ==> now[n] == db[n]))
  }

  lemma Directories()
    ensures INSTALLED_DIR == "/data/local/tmp" + "/apm/runtime/installed"
    ensures COMMANDS_DIR == "/data/local/tmp" + "/apm/runtime/installed/commands"
    ensures DEPENDENCIES_DIR == "/data/local/tmp" + "/apm/runtime/installed" + "/dependencies"
    ensures TERMUX_INSTALLED_DIR == "/data/local/tmp" + "/apm/runtime/installed" + "/termux/usr/.apm-installed"
  {
  }

  /** Where the payload of a record is: its install root, or for records without one the
      directory of its name below that of its domain. */
  lemma RootOfIs(p: InstalledPackage, name: string)
    ensures p.installRoot != "" ==> RootOf(p, name) == p.installRoot
    ensures p.installRoot == "" && p.termuxPackage ==> RootOf(p, name) == TERMUX_INSTALLED_DIR + "/" + name
    ensures p.installRoot == "" && !p.termuxPackage ==> RootOf(p, name) == INSTALLED_DIR + "/" + name
  {
  }

  /** A recorded root holds a payload when records and payloads agree. */
  lemma RecordedPlace(db: InstalledDb, payloads: set<string>, n: string)
    requires Agree(db, payloads) && n in db && db[n].installRoot != ""
    ensures db[n].installRoot in payloads
  {
    assert RootOf(db[n], n) in Roots(db);
  }

  /** Why an install ended. The last two name the package whose turn it was. */
  datatype InstallWhy =
    | Complete
    | BadName
    | NotOffered
    | NotLoaded
    | Unresolvable
    | FetchFailed
    | BadEntry(name: string)
    | StepFailed(name: string)
  {
    /** The request was accepted and the database read, so that there is a plan or none. */
    predicate Asked() { !BadName? && !NotOffered? && !NotLoaded? }

    predicate Planned() { Asked() && !Unresolvable? }
  }
}
