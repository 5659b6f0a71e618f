/** Two ways to choose a Debian package among several indices: upgrade takes the first index
    that offers the name, the resolver scans all indices merged into one list. */
module MergedIndex {
  import opened Wrappers
  import opened RepoIndex
  import InstallManager

  /** The resolver's list: the entries of all non-Termux indices, one index after the other. */
  function Merged(indices: seq<Index>): seq<PackageEntry> {
    if indices == [] then []
    else
      var last := indices[|indices| - 1];
      Merged(indices[..|indices| - 1]) + if last.termux then [] else last.packages
  }

  /** A non-Termux index holds no Termux entry: the loader turns any index that holds one into
      a Termux index. */
  ghost predicate Labelled(indices: seq<Index>) {
    forall k, j :: 0 <= k < |indices| && !indices[k].termux && 0 <= j < |indices[k].packages| ==>
                     !indices[k].packages[j].isTermuxPackage
  }

  lemma {:induction false} InDomainConcat(a: seq<PackageEntry>, b: seq<PackageEntry>, termux: bool)
    ensures InstallManager.InDomain(a + b, termux) == InstallManager.InDomain(a, termux) + InstallManager.InDomain(b, termux)
  {
    if b == [] {
      assert a + b == a;
    } else {
      var init := b[..|b| - 1];
      InDomainConcat(a, init, termux);
      assert (a + b)[..|a + b| - 1] == a + init && (a + b)[|a + b| - 1] == b[|b| - 1];
    }
  }

  lemma {:induction false} InDomainOf(list: seq<PackageEntry>, termux: bool)
    requires forall j :: 0 <= j < |list| ==> list[j].isTermuxPackage == termux
    ensures InstallManager.InDomain(list, false) == if termux then [] else list
  {
    if list != [] {
      var init := list[..|list| - 1];
      InDomainOf(init, termux);
      assert list == init + [list[|list| - 1]];
    }
  }

  lemma MarkedLast(indices: seq<Index>)
    requires indices != [] && Labelled(indices)
    ensures var init, last := indices[..|indices| - 1], indices[|indices| - 1];
            && Labelled(init) && InstallManager.Merged(indices) == InstallManager.Merged(init) + InstallManager.Marked(last)
            && (forall j :: 0 <= j < |InstallManager.Marked(last)| ==> InstallManager.Marked(last)[j].isTermuxPackage == last.termux)
            && (!last.termux ==> InstallManager.Marked(last) == last.packages)
  {
    var last := indices[|indices| - 1];
    forall j | 0 <= j < |last.packages|
      ensures !last.termux ==> !last.packages[j].isTermuxPackage
    {
    }
  }

  /** The merged list is the one an install hands to the resolver in Debian mode. */
  lemma {:induction false} ResolverSees(indices: seq<Index>)
    requires Labelled(indices)
    ensures InstallManager.InDomain(InstallManager.Merged(indices), false) == Merged(indices)
  {
    if indices == [] {
    } else {
      hide InstallManager.InDomain, InstallManager.Merged, InstallManager.Marked;
      var init, last := indices[..|indices| - 1], indices[|indices| - 1];
      MarkedLast(indices);
      ResolverSees(init);
      InDomainConcat(InstallManager.Merged(init), InstallManager.Marked(last), false);
      InDomainOf(InstallManager.Marked(last), last.termux);
    }
  }

  /** Where an entry of index number k stands in the merged list. */
  function Position(indices: seq<Index>, at: Place): nat
    requires at.0 < |indices|
  {
    |Merged(indices[..at.0])| + at.1
  }

  /** The first matching entry of a non-Termux index. */
  ghost function FirstSelected(indices: seq<Index>, n: nat, name: string, sel: Selector): (r: Option<Place>)
    requires n <= |indices|
    ensures r.Some? ==>
              && r.value.0 < n && !indices[r.value.0].termux && Hit(indices[r.value.0], name, sel) == Some(r.value.1)
              && forall k :: 0 <= k < r.value.0 && !indices[k].termux ==> Hit(indices[k], name, sel).None?
    ensures r.None? ==> forall k :: 0 <= k < n && !indices[k].termux ==> Hit(indices[k], name, sel).None?
  {
    if n == 0 then None
    else
      var before := FirstSelected(indices, n - 1, name, sel);
      if before.Some? then before
      else if indices[n - 1].termux || Hit(indices[n - 1], name, sel).None? then None
      else Some((n - 1, Hit(indices[n - 1], name, sel).value))
  }

  ghost function Hit(idx: Index, name: string, sel: Selector): Option<nat> {
    FirstMatch(idx.packages, |idx.packages|, name, sel)
  }

  lemma {:induction false} FirstMatchPrefix(a: seq<PackageEntry>, b: seq<PackageEntry>, n: nat, name: string, sel: Selector)
    requires n <= |a|
    ensures FirstMatch(a + b, n, name, sel) == FirstMatch(a, n, name, sel)
  {
    hide Matches;
    if n > 0 {
      FirstMatchPrefix(a, b, n - 1, name, sel);
    }
  }

  lemma {:induction false} FirstMatchConcat(a: seq<PackageEntry>, b: seq<PackageEntry>, n: nat, name: string, sel: Selector)
    requires n <= |b|
    ensures FirstMatch(a + b, |a| + n, name, sel) ==
            if FirstMatch(a, |a|, name, sel).Some? then FirstMatch(a, |a|, name, sel)
            else match FirstMatch(b, n, name, sel) { case None => None case Some(j) => Some(|a| + j) }
  {
    hide Matches;
    if n == 0 {
      FirstMatchPrefix(a, b, |a|, name, sel);
    } else {
      FirstMatchConcat(a, b, n - 1, name, sel);
      assert (a + b)[|a| + n - 1] == b[n - 1];
    }
  }

  function Located(indices: seq<Index>, at: Option<Place>): Option<nat>
    requires at.Some? ==> at.value.0 < |indices|
  {
    if at.None? then None else Some(Position(indices, at.value))
  }

  lemma MergedNext(indices: seq<Index>, n: nat)
    requires n < |indices|
    ensures Merged(indices[..n + 1]) == Merged(indices[..n]) + if indices[n].termux then [] else indices[n].packages
  {
    assert indices[..n + 1][..n] == indices[..n];
  }

  /** Scanning the merged list is scanning index after index. */
  lemma {:induction false} MergedScan(indices: seq<Index>, n: nat, name: string, sel: Selector)
    requires n <= |indices|
    ensures var list := Merged(indices[..n]);
            FirstMatch(list, |list|, name, sel) == Located(indices, FirstSelected(indices, n, name, sel))
  {
    hide FirstMatch, Merged;
    if n == 0 {
      EmptyScan(name, sel);
      NothingMerged(indices);
    } else {
      MergedScan(indices, n - 1, name, sel);
      MergedNext(indices, n - 1);
      var before, last := Merged(indices[..n - 1]), indices[n - 1];
      if last.termux {
        assert before + [] == before;
      } else {
        FirstMatchConcat(before, last.packages, |last.packages|, name, sel);
      }
    }
  }

  lemma NothingMerged(indices: seq<Index>)
    ensures Merged(indices[..0]) == []
  {
  }

  lemma EmptyScan(name: string, sel: Selector)
    ensures FirstMatch([], 0, name, sel) == None
  {
  }

  /** The guard under which the two choices part: the first index that offers the name has it
      only for "all" architectures, and a later one has it for the exact architecture. */
  ghost predicate Parts(indices: seq<Index>, name: string, arch: string) {
    var u := FirstIndex(indices, |indices|, name, DebianScan(arch));
    && arch != "" && u.Some?
    && Hit(indices[u.value.0], name, OfArch(arch)).None?
    && exists k :: u.value.0 < k < |indices| && !indices[k].termux && Hit(indices[k], name, OfArch(arch)).Some?
  }

  lemma {:induction false} MergedGrows(indices: seq<Index>, k: nat, n: nat)
    requires k <= n <= |indices|
    ensures |Merged(indices[..k])| <= |Merged(indices[..n])|
    ensures k < n && !indices[k].termux ==> |Merged(indices[..k])| + |indices[k].packages| <= |Merged(indices[..n])|
  {
    if k < n {
      MergedGrows(indices, k, n - 1);
      assert indices[..n][..n - 1] == indices[..n - 1];
    }
  }

  lemma PlacesDiffer(indices: seq<Index>, a: Place, b: Place)
    requires a.0 < b.0 < |indices| && !indices[a.0].termux && a.1 < |indices[a.0].packages|
    ensures Position(indices, a) < Position(indices, b)
  {
    MergedGrows(indices, a.0, b.0);
  }

  /** The resolver's pick, index by index. */
  ghost function Picked(indices: seq<Index>, name: string, arch: string): (r: Option<Place>)
    ensures r.Some? ==> r.value.0 < |indices|
  {
    var n := |indices|;
    if name == "" then None
    else if arch == "" then FirstSelected(indices, n, name, AnyEntry)
    else if FirstSelected(indices, n, name, OfArch(arch)).Some? then FirstSelected(indices, n, name, OfArch(arch))
    else FirstSelected(indices, n, name, OfArch("all"))
  }

  lemma PickedIs(indices: seq<Index>, name: string, arch: string)
    ensures Pick(Merged(indices), name, arch) == Located(indices, Picked(indices, name, arch))
  {
    hide FirstMatch, FirstSelected, Merged, Position;
    var n := |indices|;
    assert indices[..n] == indices;
    MergedScan(indices, n, name, AnyEntry);
    MergedScan(indices, n, name, OfArch(arch));
    MergedScan(indices, n, name, OfArch("all"));
  }

  lemma PickedOrCandidate(indices: seq<Index>, name: string, arch: string)
    ensures var u, r := FirstIndex(indices, |indices|, name, DebianScan(arch)), Picked(indices, name, arch);
            if Parts(indices, name, arch)
            then u.Some? && r.Some? && u.value.0 < r.value.0 && !indices[u.value.0].termux && u.value.1 < |indices[u.value.0].packages|
            else r == u
  {
    hide FirstMatch, FirstSelected, FirstIndex;
    var n := |indices|;
    var u := FirstIndex(indices, n, name, DebianScan(arch));
    var exact, all := FirstSelected(indices, n, name, OfArch(arch)), FirstSelected(indices, n, name, OfArch("all"));
    forall k | 0 <= k < n && !indices[k].termux
      ensures PickIn(indices[k], name, DebianScan(arch)) ==
              if name == "" then None
              else if arch == "" then Hit(indices[k], name, AnyEntry)
              else if Hit(indices[k], name, OfArch(arch)).Some? then Hit(indices[k], name, OfArch(arch))
              else Hit(indices[k], name, OfArch("all"))
    {
    }
  }

  /** For every list of indices, name and architecture: the upgrade candidate is the entry the
      resolver picks from the merged list, unless the guard above holds; then it is not. */
  lemma SameChoiceIff(indices: seq<Index>, name: string, arch: string)
    ensures Pick(Merged(indices), name, arch) == Located(indices, FirstIndex(indices, |indices|, name, DebianScan(arch)))
            <==> !Parts(indices, name, arch)
  {
    hide FirstMatch, FirstIndex, Picked, Position, Merged, Pick, Parts;
    PickedIs(indices, name, arch);
    PickedOrCandidate(indices, name, arch);
    if Parts(indices, name, arch) {
      PlacesDiffer(indices, FirstIndex(indices, |indices|, name, DebianScan(arch)).value, Picked(indices, name, arch).value);
    }
  }

  /** Two indices for which the choices part. */
  lemma ChoicesPart()
    ensures var generic := PackageEntry("tool", "1", "all", [], false, "", "", "");
            var native := generic.(architecture := "arm64");
            var indices := [Index([generic], false), Index([native], false)];
            && FirstIndex(indices, 2, "tool", DebianScan("arm64")) == Some((0, 0))
            && Pick(Merged(indices), "tool", "arm64") == Some(1)
  {
    var generic := PackageEntry("tool", "1", "all", [], false, "", "", "");
    var native := generic.(architecture := "arm64");
    var indices := [Index([generic], false), Index([native], false)];
    assert !Matches(generic, "tool", OfArch("arm64")) && Matches(generic, "tool", OfArch("all"));
    assert PickIn(indices[0], "tool", DebianScan("arm64")) == Some(0);
    assert indices[..1][..0] == [] && indices[..1] == [indices[0]];
    assert Merged(indices[..1]) == [generic];
    assert Merged(indices) == [generic, native];
  }
}
