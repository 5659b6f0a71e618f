/** Package lookup: the linear scan findPackage, the resolver's three name maps, the
    upgrade candidate maps and the daemon's name index. Entries are identified by
    position, as the code identifies them by address. */
module RepoIndex {
  import opened Wrappers

  datatype PackageEntry = PackageEntry(
    packageName: string,
    version: string,
    architecture: string,
    depends: seq<string>,
    isTermuxPackage: bool,
    repoUri: string,
    repoDist: string,
    repoComponent: string)

  /** One repository index; `termux` is isTermuxRepo or the Termux format. */
  datatype Index = Index(packages: seq<PackageEntry>, termux: bool)

  datatype Selector = AnyEntry | OfArch(arch: string) | TermuxOnly

  predicate Matches(p: PackageEntry, name: string, sel: Selector) {
    && p.packageName == name
    && match sel
       case AnyEntry => true
       case OfArch(a) => p.architecture == a
       case TermuxOnly => p.isTermuxPackage
  }

  /** The least position below n whose entry matches. */
  ghost function FirstMatch(list: seq<PackageEntry>, n: nat, name: string, sel: Selector): (r: Option<nat>)
    requires n <= |list|
    ensures r.Some? ==>
              && r.value < n && Matches(list[r.value], name, sel)
              && forall k :: 0 <= k < r.value ==> !Matches(list[k], name, sel)
    ensures r.None? ==> forall k :: 0 <= k < n ==> !Matches(list[k], name, sel)
  {
    if n == 0 then None
    else
      var before := FirstMatch(list, n - 1, name, sel);
      if before.Some? then before
      else if Matches(list[n - 1], name, sel) then Some(n - 1)
      else None
  }

  /** Meaning of findPackage: an exact architecture wins over "all"; earlier entries win. */
  ghost function Pick(list: seq<PackageEntry>, name: string, arch: string): (r: Option<nat>)
    ensures r.Some? ==> r.value < |list| && list[r.value].packageName == name
  {
    if name == "" then None
    else if arch == "" then FirstMatch(list, |list|, name, AnyEntry)
    else
      var exact := FirstMatch(list, |list|, name, OfArch(arch));
      if exact.Some? then exact else FirstMatch(list, |list|, name, OfArch("all"))
  }

  method FindPackage(list: seq<PackageEntry>, name: string, arch: string) returns (r: Option<nat>)
    ensures r == Pick(list, name, arch)
  {
    if name == "" {
      return None;
    }
    var fallbackAll: Option<nat> := None;
    for i := 0 to |list|
      invariant arch == "" ==> FirstMatch(list, i, name, AnyEntry).None? && fallbackAll.None?
      invariant arch != "" ==> FirstMatch(list, i, name, OfArch(arch)).None?
      invariant arch != "" ==> fallbackAll == FirstMatch(list, i, name, OfArch("all"))
    {
      if list[i].packageName == name {
        if arch != "" {
          if list[i].architecture == arch {
            FirstMatchExtends(list, i + 1, name, OfArch(arch));
            return Some(i);
          }
          if list[i].architecture == "all" && fallbackAll == None {
            fallbackAll := Some(i);
          }
        } else {
          FirstMatchExtends(list, i + 1, name, AnyEntry);
          return Some(i);
        }
      }
    }
    return fallbackAll;
  }

  lemma {:induction false} FirstMatchExtends(list: seq<PackageEntry>, n: nat, name: string, sel: Selector)
    requires n <= |list| && FirstMatch(list, n, name, sel).Some?
    ensures FirstMatch(list, |list|, name, sel) == FirstMatch(list, n, name, sel)
    decreases |list| - n
  {
    if n < |list| {
      FirstMatchExtends(list, n + 1, name, sel);
    }
  }

  function Lookup<V>(m: map<string, V>, name: string): Option<V> {
    if name in m then Some(m[name]) else None
  }

  /** The lookup maps a resolver run fills; the Termux resolver fills only the first. */
  datatype Maps = Maps(
    arch: string,
    firstByName: map<string, nat>,
    archByName: map<string, nat>,
    allByName: map<string, nat>)
  {
    function Find(name: string): Option<nat> {
      if arch == "" then Lookup(firstByName, name)
      else if name in archByName then Some(archByName[name])
      else Lookup(allByName, name)
    }
  }

  /** m holds, for every non-empty name, the first of the n first entries selected by sel. */
  ghost predicate Indexes(m: map<string, nat>, list: seq<PackageEntry>, n: nat, sel: Selector)
    requires n <= |list|
  {
    forall name :: Lookup(m, name) == if name == "" then None else FirstMatch(list, n, name, sel)
  }

  function Emplace<V>(m: map<string, V>, name: string, v: V): map<string, V> {
    if name in m then m else m[name := v]
  }

  lemma EmplaceIndexes(m: map<string, nat>, list: seq<PackageEntry>, n: nat, sel: Selector)
    requires n < |list| && Indexes(m, list, n, sel)
    ensures var p := list[n];
            p.packageName != "" && Matches(p, p.packageName, sel)
            ==> Indexes(Emplace(m, p.packageName, n), list, n + 1, sel)
    ensures var p := list[n];
            !(p.packageName != "" && Matches(p, p.packageName, sel)) ==> Indexes(m, list, n + 1, sel)
  {
    var p := list[n];
    var m' := if p.packageName != "" && Matches(p, p.packageName, sel) then Emplace(m, p.packageName, n) else m;
    forall name
      ensures Lookup(m', name) == if name == "" then None else FirstMatch(list, n + 1, name, sel)
    {
      assert Lookup(m, name) == if name == "" then None else FirstMatch(list, n, name, sel);
      assert p.packageName in m <==> Lookup(m, p.packageName).Some?;
    }
  }

  /** The map-filling loop of resolveDependencies: the three-map lookup is the linear scan. */
  method BuildMaps(list: seq<PackageEntry>, arch: string) returns (m: Maps)
    ensures m.arch == arch
    ensures forall name :: m.Find(name) == Pick(list, name, arch)
  {
    var first: map<string, nat>, byArch: map<string, nat>, byAll: map<string, nat> := map[], map[], map[];
    for i := 0 to |list|
      invariant Indexes(first, list, i, AnyEntry)
      invariant arch != "" ==> Indexes(byArch, list, i, OfArch(arch))
      invariant arch != "" ==> Indexes(byAll, list, i, OfArch("all"))
    {
      var pkg := list[i];
      EmplaceIndexes(first, list, i, AnyEntry);
      if arch != "" {
        EmplaceIndexes(byArch, list, i, OfArch(arch));
        EmplaceIndexes(byAll, list, i, OfArch("all"));
      }
      if pkg.packageName == "" {
        continue;
      }
      first := Emplace(first, pkg.packageName, i);
      if arch != "" && pkg.architecture == arch {
        byArch := Emplace(byArch, pkg.packageName, i);
      }
      if arch != "" && pkg.architecture == "all" {
        byAll := Emplace(byAll, pkg.packageName, i);
      }
    }
    m := Maps(arch, first, byArch, byAll);
    forall name
      ensures m.Find(name) == Pick(list, name, arch)
    {
      if arch == "" {
        assert Lookup(first, name) == m.Find(name);
      } else {
        assert Lookup(byArch, name).Some? <==> name in byArch;
        assert Lookup(byAll, name) == if name == "" then None else FirstMatch(list, |list|, name, OfArch("all"));
      }
    }
  }

  /** The map-filling loop of resolveTermuxDependencies. */
  method BuildTermuxMap(list: seq<PackageEntry>) returns (m: Maps)
    ensures m.arch == ""
    ensures forall name ::
              m.Find(name) == if name == "" then None else FirstMatch(list, |list|, name, TermuxOnly)
  {
    var byName: map<string, nat> := map[];
    for i := 0 to |list|
      invariant Indexes(byName, list, i, TermuxOnly)
    {
      EmplaceIndexes(byName, list, i, TermuxOnly);
      if list[i].isTermuxPackage && list[i].packageName != "" {
        byName := Emplace(byName, list[i].packageName, i);
      }
    }
    m := Maps("", byName, map[], map[]);
  }

  // ----- candidates over several indices -----

  /** Where an entry sits: index number, then position inside that index. */
  type Place = (nat, nat)

  datatype Scan = DebianScan(arch: string) | TermuxScan | NameScan

  /** What one index contributes to a scan. */
  ghost function PickIn(idx: Index, name: string, scan: Scan): (r: Option<nat>)
    ensures r.Some? ==> r.value < |idx.packages|
  {
    match scan
    case DebianScan(arch) => if idx.termux then None else Pick(idx.packages, name, arch)
    case TermuxScan =>
      if !idx.termux || name == "" then None
      else FirstMatch(idx.packages, |idx.packages|, name, TermuxOnly)
    case NameScan => Pick(idx.packages, name, "")
  }

  /** The first index, in order, whose own scan succeeds. */
  ghost function FirstIndex(indices: seq<Index>, n: nat, name: string, scan: Scan): (r: Option<Place>)
    requires n <= |indices|
    ensures r.Some? ==>
              && r.value.0 < n && PickIn(indices[r.value.0], name, scan) == Some(r.value.1)
              && forall k :: 0 <= k < r.value.0 ==> PickIn(indices[k], name, scan).None?
    ensures r.None? ==> forall k :: 0 <= k < n ==> PickIn(indices[k], name, scan).None?
  {
    if n == 0 then None
    else
      var before := FirstIndex(indices, n - 1, name, scan);
      if before.Some? then before
      else
        match PickIn(indices[n - 1], name, scan)
        case Some(j) => Some((n - 1, j))
        case None => None
  }

  ghost predicate Candidates(m: map<string, Place>, indices: seq<Index>, n: nat, scan: Scan)
    requires n <= |indices|
  {
    forall name :: Lookup(m, name) == FirstIndex(indices, n, name, scan)
  }

  /** Emplaces every entry of `found` in an arbitrary order, as iterating a hash map does. */
  method EmplaceAll(m: map<string, Place>, found: map<string, nat>, k: nat) returns (r: map<string, Place>)
    ensures forall name ::
              Lookup(r, name) == if name in m then Some(m[name])
                                 else if name in found then Some((k, found[name])) else None
  {
    r := m;
    var todo := found.Keys;
    while todo != {}
      invariant todo <= found.Keys
      invariant forall name ::
                  Lookup(r, name) == if name in m then Some(m[name])
                                     else if name in found.Keys - todo then Some((k, found[name])) else None
    {
      var name :| name in todo;
      assert name in r <==> Lookup(r, name).Some?;
      ghost var before := r;
      r := Emplace(r, name, (k, found[name]));
      todo := todo - {name};
      forall other
        ensures Lookup(r, other) == if other in m then Some(m[other])
                                    else if other in found.Keys - todo then Some((k, found[other])) else None
      {
        assert Lookup(before, other) == if other in m then Some(m[other])
                                        else if other in found.Keys - todo - {name} then Some((k, found[other])) else None;
      }
    }
  }

  /** One Debian index with an architecture: exact matches first, then "all". */
  method AddMatches(deb: map<string, Place>, m: Maps, k: nat) returns (r: map<string, Place>)
    requires m.arch != ""
    ensures forall name ::
              Lookup(r, name) == if name in deb then Some(deb[name])
                                 else if m.Find(name).Some? then Some((k, m.Find(name).value)) else None
  {
    var exact := EmplaceAll(deb, m.archByName, k);
    r := EmplaceAll(exact, m.allByName, k);
    forall name
      ensures Lookup(r, name) == if name in deb then Some(deb[name])
                                 else if m.Find(name).Some? then Some((k, m.Find(name).value)) else None
    {
      assert name in exact <==> Lookup(exact, name).Some?;
    }
  }

  /** Candidate maps of upgradePackages: each name maps to the first index, Termux or
      Debian as the map's domain requires, whose scan finds it. */
  method BuildCandidates(indices: seq<Index>, arch: string)
    returns (deb: map<string, Place>, termux: map<string, Place>)
    ensures Candidates(deb, indices, |indices|, DebianScan(arch))
    ensures Candidates(termux, indices, |indices|, TermuxScan)
  {
    hide FirstMatch, FirstIndex, Candidates;
    deb, termux := map[], map[];
    NoCandidates(indices, DebianScan(arch));
    NoCandidates(indices, TermuxScan);
    for k := 0 to |indices|
      invariant Candidates(deb, indices, k, DebianScan(arch))
      invariant Candidates(termux, indices, k, TermuxScan)
    {
      var idx := indices[k];
      ghost var deb0, termux0 := deb, termux;
      if idx.termux {
        var m := BuildTermuxMap(idx.packages);
        termux := EmplaceAll(termux, m.firstByName, k);
        StepCandidates(termux0, m, termux, indices, k, TermuxScan);
        SkipIndex(deb, indices, k, DebianScan(arch));
      } else if arch == "" {
        var m := BuildMaps(idx.packages, "");
        deb := EmplaceAll(deb, m.firstByName, k);
        StepCandidates(deb0, m, deb, indices, k, DebianScan(arch));
        SkipIndex(termux, indices, k, TermuxScan);
      } else {
        var m := BuildMaps(idx.packages, arch);
        deb := AddMatches(deb, m, k);
        StepCandidates(deb0, m, deb, indices, k, DebianScan(arch));
        SkipIndex(termux, indices, k, TermuxScan);
      }
    }
  }

  lemma NoCandidates(indices: seq<Index>, scan: Scan)
    ensures Candidates(map[], indices, 0, scan)
  {
  }

  lemma StepCandidates(m0: map<string, Place>, maps: Maps, m: map<string, Place>, indices: seq<Index>, k: nat, scan: Scan)
    requires k < |indices| && Candidates(m0, indices, k, scan)
    requires forall name :: maps.Find(name) == PickIn(indices[k], name, scan)
    requires forall name ::
               Lookup(m, name) == if name in m0 then Some(m0[name])
                                  else if maps.Find(name).Some? then Some((k, maps.Find(name).value)) else None
    ensures Candidates(m, indices, k + 1, scan)
  {
    forall name
      ensures Lookup(m, name) == FirstIndex(indices, k + 1, name, scan)
    {
      assert Lookup(m0, name) == FirstIndex(indices, k, name, scan);
      assert maps.Find(name) == PickIn(indices[k], name, scan);
    }
  }

  lemma SkipIndex(m: map<string, Place>, indices: seq<Index>, k: nat, scan: Scan)
    requires k < |indices| && Candidates(m, indices, k, scan)
    requires forall name :: PickIn(indices[k], name, scan).None?
    ensures Candidates(m, indices, k + 1, scan)
  {
    forall name
      ensures Lookup(m, name) == FirstIndex(indices, k + 1, name, scan)
    {
      assert Lookup(m, name) == FirstIndex(indices, k, name, scan);
      assert PickIn(indices[k], name, scan).None?;
    }
  }

  /** `m` is `before` together with the first i entries of index number k, earlier ones winning. */
  ghost predicate Gathered(m: map<string, Place>, before: map<string, Place>, list: seq<PackageEntry>, i: nat, k: nat)
    requires i <= |list|
  {
    forall name ::
      Lookup(m, name) == if name in before then Some(before[name])
                         else if name == "" || FirstMatch(list, i, name, AnyEntry).None? then None
                         else Some((k, FirstMatch(list, i, name, AnyEntry).value))
  }

  lemma GatherOne(m: map<string, Place>, before: map<string, Place>, list: seq<PackageEntry>, i: nat, k: nat)
    requires i < |list| && Gathered(m, before, list, i, k)
    ensures var key := list[i].packageName;
            Gathered(if key == "" then m else Emplace(m, key, (k, i)), before, list, i + 1, k)
  {
    var key := list[i].packageName;
    var m' := if key == "" then m else Emplace(m, key, (k, i));
    forall name
      ensures Lookup(m', name) == if name in before then Some(before[name])
                                  else if name == "" || FirstMatch(list, i + 1, name, AnyEntry).None? then None
                                  else Some((k, FirstMatch(list, i + 1, name, AnyEntry).value))
    {
      assert name in m <==> Lookup(m, name).Some?;
    }
  }

  lemma GatheredIndex(m: map<string, Place>, before: map<string, Place>, indices: seq<Index>, k: nat)
    requires k < |indices| && Candidates(before, indices, k, NameScan)
    requires Gathered(m, before, indices[k].packages, |indices[k].packages|, k)
    ensures Candidates(m, indices, k + 1, NameScan)
  {
    forall name
      ensures Lookup(m, name) == FirstIndex(indices, k + 1, name, NameScan)
    {
      assert Lookup(before, name) == FirstIndex(indices, k, name, NameScan);
    }
  }

  /** buildRepoLookupMaps of the daemon: the name index is the first hit of an
      architecture-free scan over the indices. */
  method BuildNameIndex(indices: seq<Index>) returns (byName: map<string, Place>)
    ensures Candidates(byName, indices, |indices|, NameScan)
  {
    byName := map[];
    for k := 0 to |indices|
      invariant Candidates(byName, indices, k, NameScan)
    {
      var list := indices[k].packages;
      ghost var before := byName;
      for i := 0 to |list|
        invariant Gathered(byName, before, list, i, k)
      {
        GatherOne(byName, before, list, i, k);
        if list[i].packageName != "" {
          byName := Emplace(byName, list[i].packageName, (k, i));
        }
      }
      GatheredIndex(byName, before, indices, k);
    }
  }
}
