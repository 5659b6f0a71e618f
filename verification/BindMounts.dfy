/** The bind backend of the module manager: a recursion that emulates an overlay with file
    binds and subtree overlays, its rollback, and the persisted list of mounts. */
module BindMounts {
  import opened Overlay
  import opened Sorting
  import opened Wrappers

  datatype Mount = Mount(path: Path, node: Node)

  function Paths(ms: seq<Mount>): (r: seq<Path>)
    ensures |r| == |ms| && forall i :: 0 <= i < |r| ==> r[i] == ms[i].path
  {
    seq(|ms|, i requires 0 <= i < |ms| => ms[i].path)
  }

  lemma PathsJoin(live: seq<Mount>, mounted: seq<Path>, a: seq<Mount>, b: seq<Mount>)
    ensures live + a + b == live + (a + b)
    ensures mounted + Paths(a) + Paths(b) == mounted + Paths(a + b)
  {
  }

  /** The tree visible at the mount point: later mounts cover earlier ones. */
  function View(base: Node, ms: seq<Mount>): Node {
    if ms == [] then base
    else Graft(View(base, ms[..|ms| - 1]), ms[|ms| - 1].path, ms[|ms| - 1].node)
  }

  lemma ViewPush(base: Node, ms: seq<Mount>, m: Mount)
    ensures View(base, ms + [m]) == Graft(View(base, ms), m.path, m.node)
  {
    assert (ms + [m])[..|ms|] == ms;
  }

  ghost predicate NonNested(ps: seq<Path>) {
    forall i, j :: 0 <= i < |ps| && 0 <= j < |ps| && i != j ==> !(ps[i] <= ps[j])
  }

  // ----- unmounting -----

  /** The mount through which a path resolves: the last one at the path or above it. */
  function Covering(ms: seq<Mount>, p: Path): (r: Option<nat>)
    ensures r.Some? ==> r.value < |ms| && ms[r.value].path <= p
    ensures forall i :: (if r.Some? then r.value < i else true) && 0 <= i < |ms| ==> !(ms[i].path <= p)
  {
    if ms == [] then None
    else if ms[|ms| - 1].path <= p then Some(|ms| - 1)
    else Covering(ms[..|ms| - 1], p)
  }

  function Outside(ms: seq<Mount>, p: Path): seq<Mount> {
    if ms == [] then []
    else Outside(ms[..|ms| - 1], p) + (if p <= ms[|ms| - 1].path then [] else [ms[|ms| - 1]])
  }

  /** umount2(p, MNT_DETACH): the mount at p goes, with whatever was mounted below it since;
      where p is not a visible mount point (EINVAL, ENOENT) nothing happens. */
  function Detach(ms: seq<Mount>, p: Path): seq<Mount> {
    match Covering(ms, p)
    case None => ms
    case Some(i) => if ms[i].path == p then ms[..i] + Outside(ms[i + 1..], p) else ms
  }

  /** Unmounting in reverse order of mounting undoes one mount at a time. */
  lemma DetachLast(ms: seq<Mount>, m: Mount)
    ensures Detach(ms + [m], m.path) == ms
  {
    assert Covering(ms + [m], m.path) == Some(|ms|);
    assert (ms + [m])[|ms| + 1..] == [] && (ms + [m])[..|ms|] == ms;
  }

  /** Unmounting takes along what was mounted below since, and nothing else. */
  lemma DetachTakesBelow(ms: seq<Mount>, m: Mount, since: seq<Mount>)
    requires forall i :: 0 <= i < |since| ==> !(since[i].path <= m.path)
    ensures Detach(ms + [m] + since, m.path) == ms + Outside(since, m.path)
    ensures forall x :: x in Outside(since, m.path) <==> x in since && !(m.path <= x.path)
  {
    hide Outside, Covering;
    Surrounded(ms, m, since);
    LastCovering(ms + [m] + since, m.path, |ms|);
    OutsideIs(since, m.path);
  }

  lemma Surrounded(ms: seq<Mount>, m: Mount, since: seq<Mount>)
    ensures var all := ms + [m] + since;
            && all[..|ms|] == ms && all[|ms|] == m && all[|ms| + 1..] == since
            && forall j :: |ms| < j < |all| ==> all[j] == since[j - |ms| - 1]
  {
  }

  lemma {:induction false} LastCovering(ms: seq<Mount>, p: Path, i: nat)
    requires i < |ms| && ms[i].path <= p && forall j :: i < j < |ms| ==> !(ms[j].path <= p)
    ensures Covering(ms, p) == Some(i)
  {
    if i < |ms| - 1 {
      LastCovering(ms[..|ms| - 1], p, i);
    }
  }

  lemma {:induction false} OutsideIs(ms: seq<Mount>, p: Path)
    ensures forall x :: x in Outside(ms, p) <==> x in ms && !(p <= x.path)
  {
    if ms != [] {
      var init, last := ms[..|ms| - 1], ms[|ms| - 1];
      OutsideIs(init, p);
      assert forall x :: x in ms <==> x in init || x == last;
    }
  }

  lemma {:induction false} OutsideKeepsUnrelated(ms: seq<Mount>, p: Path)
    requires forall i :: 0 <= i < |ms| ==> !(p <= ms[i].path)
    ensures Outside(ms, p) == ms
  {
    if ms != [] {
      var init, last := ms[..|ms| - 1], ms[|ms| - 1];
      OutsideKeepsUnrelated(init, p);
      assert Outside(ms, p) == init + [last] == ms;
    }
  }

  function Without(ms: seq<Mount>, i: nat): seq<Mount>
    requires i < |ms|
  {
    ms[..i] + ms[i + 1..]
  }

  lemma WithoutNonNested(ms: seq<Mount>, i: nat)
    requires NonNested(Paths(ms)) && i < |ms|
    ensures NonNested(Paths(Without(ms, i)))
  {
    var rest := Without(ms, i);
    forall a, b | 0 <= a < |rest| && 0 <= b < |rest| && a != b
      ensures !(Paths(rest)[a] <= Paths(rest)[b])
    {
      var a', b' := if a < i then a else a + 1, if b < i then b else b + 1;
      assert !(Paths(ms)[a'] <= Paths(ms)[b']);
    }
  }

  lemma WithoutKeeps(ms: seq<Mount>, i: nat, m: Mount)
    requires i < |ms| && m in ms && m.path != ms[i].path
    ensures m in Without(ms, i)
  {
    var j :| 0 <= j < |ms| && ms[j] == m;
    assert Without(ms, i)[if j < i then j else j - 1] == m;
  }

  lemma WithoutDrops(ms: seq<Mount>, i: nat, m: Mount)
    requires NonNested(Paths(ms)) && i < |ms| && m in Without(ms, i)
    ensures m in ms && m.path != ms[i].path
  {
    var j :| 0 <= j < |Without(ms, i)| && Without(ms, i)[j] == m;
    var j' := if j < i then j else j + 1;
    assert ms[j'] == m && !(Paths(ms)[i] <= Paths(ms)[j']);
  }

  lemma DetachMount(ms: seq<Mount>, i: nat)
    requires NonNested(Paths(ms)) && i < |ms|
    ensures Detach(ms, ms[i].path) == Without(ms, i)
  {
    var p := ms[i].path;
    forall j | 0 <= j < |ms| && j != i
      ensures !(ms[j].path <= p) && !(p <= ms[j].path)
    {
      assert !(Paths(ms)[i] <= Paths(ms)[j]) && !(Paths(ms)[j] <= Paths(ms)[i]);
    }
    assert Covering(ms, p) == Some(i);
    OutsideKeepsUnrelated(ms[i + 1..], p);
  }

  /** Where no mount lies under another, unmounting a path removes exactly its mount. */
  lemma DetachNonNested(ms: seq<Mount>, p: Path)
    requires NonNested(Paths(ms))
    ensures NonNested(Paths(Detach(ms, p)))
    ensures forall m :: m in Detach(ms, p) <==> m in ms && m.path != p
  {
    if i :| 0 <= i < |ms| && ms[i].path == p {
      DetachMount(ms, i);
      WithoutNonNested(ms, i);
      forall m
        ensures m in Without(ms, i) <==> m in ms && m.path != p
      {
        if m in Without(ms, i) {
          WithoutDrops(ms, i, m);
        } else if m in ms && m.path != p {
          WithoutKeeps(ms, i, m);
        }
      }
    } else {
      assert Detach(ms, p) == ms;
    }
  }

  /** Unmounting the listed paths from the last to the first. */
  function DetachAll(ms: seq<Mount>, order: seq<Path>): seq<Mount>
    decreases |order|
  {
    if order == [] then ms else DetachAll(Detach(ms, order[|order| - 1]), order[..|order| - 1])
  }

  lemma {:induction false} DetachAllNonNested(ms: seq<Mount>, order: seq<Path>)
    requires NonNested(Paths(ms))
    ensures forall m :: m in DetachAll(ms, order) <==> m in ms && m.path !in order
    decreases |order|
  {
    if order != [] {
      var p := order[|order| - 1];
      assert order == order[..|order| - 1] + [p];
      DetachNonNested(ms, p);
      DetachAllNonNested(Detach(ms, p), order[..|order| - 1]);
    }
  }

  /** The order in which the persisted list is read back: sorted, so a directory precedes
      everything below it. */
  ghost predicate Sorted(order: seq<Path>) {
    forall i, j :: 0 <= i < j < |order| ==> !(order[j] <= order[i])
  }

  /** The fallback overlay on the mount point itself hides earlier binds from the sorted
      unmount: they stay mounted, so the base is restored only if there were none. */
  lemma RootOverlayLeaks(binds: seq<Mount>, n: Node, order: seq<Path>)
    requires forall m :: m in binds ==> m.path != []
    requires Sorted(order) && [] in order
    ensures DetachAll(binds + [Mount([], n)], order) == binds
  {
    LeakLoop(binds, n, order);
  }

  lemma {:induction false} LeakLoop(binds: seq<Mount>, n: Node, order: seq<Path>)
    requires forall m :: m in binds ==> m.path != []
    requires Sorted(order) && order != [] && order[0] == []
    ensures DetachAll(binds + [Mount([], n)], order) == binds
    decreases |order|
  {
    var ms, p := binds + [Mount([], n)], order[|order| - 1];
    if |order| == 1 {
      DetachLast(binds, Mount([], n));
    } else {
      assert !(p <= order[0]);
      assert Covering(ms, p) == Some(|binds|);
      assert Detach(ms, p) == ms;
      LeakLoop(binds, n, order[..|order| - 1]);
    }
  }

  // ----- one directory level -----

  /** The base directory with the entries already handled shown as they will be. */
  ghost function Partial(s: Node, b: Node, done: set<string>): Node
    requires s.Dir? && b.Dir?
  {
    Dir(map k | k in b.entries :: if k in done then ShownEntry(s, b, k) else b.entries[k])
  }

  lemma PartialStart(s: Node, b: Node)
    requires s.Dir? && b.Dir?
    ensures Partial(s, b, {}) == b
  {
    assert Partial(s, b, {}).entries == b.entries;
  }

  lemma PartialStep(s: Node, b: Node, done: set<string>, k: string)
    requires s.Dir? && b.Dir? && k in b.entries
    ensures Partial(s, b, done + {k}) == Dir(Partial(s, b, done).entries[k := ShownEntry(s, b, k)])
  {
    assert Partial(s, b, done + {k}).entries == Partial(s, b, done).entries[k := ShownEntry(s, b, k)];
  }

  lemma PartialEnd(s: Node, b: Node, done: set<string>)
    requires s.Dir? && b.Dir?
    requires forall k :: k in s.entries && !Hidden(k) ==> k in done
    ensures Partial(s, b, done) == Descended(s, b)
  {
    forall k | k in b.entries && k !in done
      ensures ShownEntry(s, b, k) == b.entries[k]
    {
    }
    assert Partial(s, b, done).entries == Descended(s, b).entries;
  }

  lemma NothingListed(s: Node, b: Node)
    requires s.Dir? && b.Dir? && forall k :: k in s.entries ==> Hidden(k)
    ensures Shown(s, b) == b
  {
    PartialEnd(s, b, {});
    PartialStart(s, b);
  }

  lemma AtChild(t: Node, p: Path, b: Node, k: string)
    requires At(t, p) == Some(b) && b.Dir? && k in b.entries
    ensures At(t, p + [k]) == Some(b.entries[k])
  {
    GraftSame(t, p, b);
    AtGraft(t, p, b, [k]);
    assert [k][1..] == [];
  }

  /** x is b, except perhaps at the entries handled so far. */
  ghost predicate Reworked(x: Node, b: Node, done: set<string>)
    requires b.Dir?
  {
    x.Dir? && x.entries.Keys == b.entries.Keys && forall k :: k in b.entries && k !in done ==> x.entries[k] == b.entries[k]
  }

  /** Handling one more entry replaces that entry and nothing else. */
  lemma LevelStep(v: Node, p: Path, b: Node, x: Node, done: set<string>, k: string, y: Node)
    requires b.Dir? && k in b.entries && k !in done && At(v, p).Some? && Reworked(x, b, done)
    ensures At(Graft(v, p, x), p + [k]) == Some(b.entries[k])
    ensures Graft(Graft(v, p, x), p + [k], y) == Graft(v, p, Dir(x.entries[k := y]))
    ensures Reworked(Dir(x.entries[k := y]), b, done + {k})
  {
    AtGraft(v, p, x, [k]);
    assert [k][1..] == [];
    GraftInside(v, p, x, k, y);
  }

  /** Every mount lies below p, through one of the given entries. */
  ghost predicate Through(ms: seq<Mount>, p: Path, done: set<string>) {
    forall m :: m in ms ==> |p| < |m.path| && p <= m.path && m.path[|p|] in done
  }

  ghost predicate Below(ms: seq<Mount>, p: Path) {
    forall m :: m in ms ==> p <= m.path
  }

  lemma JoinThrough(ms: seq<Mount>, p: Path, done: set<string>, more: seq<Mount>, k: string)
    requires NonNested(Paths(ms)) && Through(ms, p, done)
    requires NonNested(Paths(more)) && Below(more, p + [k]) && k !in done
    ensures NonNested(Paths(ms + more)) && Through(ms + more, p, done + {k})
  {
    forall m | m in more
      ensures |p| < |m.path| && p <= m.path && m.path[|p|] == k
    {
      assert (p + [k])[..|p|] == p;
    }
    var all := ms + more;
    forall i, j | 0 <= i < |all| && 0 <= j < |all| && i != j
      ensures !(Paths(all)[i] <= Paths(all)[j])
    {
      if i < |ms| && j < |ms| {
        assert !(Paths(ms)[i] <= Paths(ms)[j]);
      } else if i >= |ms| && j >= |ms| {
        assert !(Paths(more)[i - |ms|] <= Paths(more)[j - |ms|]);
      } else {
        assert all[i].path[|p|] != all[j].path[|p|] by {
          if i < |ms| {
            assert all[i] == ms[i] && all[j] == more[j - |ms|];
          } else {
            assert all[j] == ms[j] && all[i] == more[i - |ms|];
          }
        }
      }
    }
  }

  /** The names listDir(..., false) reports: without a leading dot, in byte order. */
  method SortedNames(entries: map<string, Node>) returns (names: seq<string>)
    ensures Increasing(Less, names)
    ensures forall k :: k in names <==> k in entries && !Hidden(k)
  {
    names := [];
    var rest := set k | k in entries && !Hidden(k);
    while rest != {}
      invariant Increasing(Less, names)
      invariant forall k :: k in names || k in rest <==> k in entries && !Hidden(k)
    {
      var k :| k in rest;
      names := InsertName(names, k);
      rest := rest - {k};
    }
  }

  lemma IncreasingDiffer(names: seq<string>)
    requires Increasing(Less, names)
    ensures forall i, j :: 0 <= i < j < |names| ==> names[i] != names[j]
  {
    forall i, j | 0 <= i < j < |names|
      ensures names[i] != names[j]
    {
      LessIsStrictOrder(names[i], names[j], names[i]);
    }
  }

  /** The first pass over a directory: does it need an overlay of its own? The kinds of base
      and visible entries are both looked at. */
  method ScanLevel(s: Node, b: Node, t: Node, names: seq<string>) returns (needOverlayHere: bool)
    requires s.Dir? && b.Dir? && t.Dir?
    requires forall k :: k in names ==> k in s.entries && !Hidden(k)
    ensures (forall k :: k in s.entries && !Hidden(k) ==> k in names) ==>
              (needOverlayHere <==> NeedsOverlay(s, b) || NeedsOverlay(s, t))
    ensures !needOverlayHere ==> forall k :: k in names ==> Bindable(s.entries[k], b, k)
  {
    for i := 0 to |names|
      invariant forall j :: 0 <= j < i ==>
                              Bindable(s.entries[names[j]], b, names[j]) && Bindable(s.entries[names[j]], t, names[j])
    {
      var k := names[i];
      assert k in names;
      var staged := s.entries[k];
      if staged.Dir? {
        if !(k in b.entries && b.entries[k].Dir?) || !(k in t.entries && t.entries[k].Dir?) {
          return true;
        }
      } else if staged.File? {
        if !(k in b.entries && b.entries[k].File?) || !(k in t.entries && t.entries[k].File?) {
          return true;
        }
      } else {
        return true;
      }
    }
    return false;
  }

  // ----- which staged entries lead to mounts -----

  /** Handling the staged directory s over the base directory b makes at least one mount. */
  ghost predicate Binds(s: Node, b: Node)
    requires s.Dir? && b.Dir?
    decreases s
  {
    NeedsOverlay(s, b) || exists k :: k in s.entries && !Hidden(k) && EntryBinds(s, b, k)
  }

  ghost predicate EntryBinds(s: Node, b: Node, k: string)
    requires s.Dir? && b.Dir? && k in s.entries
    decreases s, 0
  {
    k in b.entries && (s.entries[k].Dir? && b.entries[k].Dir? ==> Binds(s.entries[k], b.entries[k]))
  }

  /** A staged top-level entry that is neither directory nor regular file. */
  ghost predicate HasSpecial(s: Node)
    requires s.Dir?
  {
    exists k :: k in s.entries && !Hidden(k) && s.entries[k].Other?
  }

  /** k is listed before every special entry. */
  ghost predicate BeforeSpecials(s: Node, k: string)
    requires s.Dir?
  {
    forall f :: f in s.entries && !Hidden(f) && s.entries[f].Other? ==> Less(k, f)
  }

  /** No entry listed before the first special one makes a mount. */
  ghost predicate NoEarlyBind(s: Node, b: Node)
    requires s.Dir? && b.Dir?
  {
    forall k :: k in s.entries && !Hidden(k) && BeforeSpecials(s, k) ==> !EntryBinds(s, b, k)
  }

  /** Some name that does not start with a dot is listed before every special entry and is
      neither a directory over a directory nor a file over a file: the backend gives up. */
  ghost predicate Blocked(s: Node, b: Node)
    requires s.Dir? && b.Dir?
  {
    exists k :: k in s.entries && !(k != "" && k[0] == '.') && !s.entries[k].Other? && BeforeSpecials(s, k)
                && !(k in b.entries && s.entries[k].Dir? && b.entries[k].Dir?)
                && !(k in b.entries && s.entries[k].File? && b.entries[k].File?)
  }

  ghost predicate BlockedStack(layers: seq<Node>, base: Node)
    requires base.Dir?
  {
    var staged := Stacked(layers, Dir(map[]));
    staged.Dir? && Blocked(staged, base)
  }

  lemma NothingBlocked(b: Node)
    requires b.Dir?
    ensures !BlockedStack([], b)
  {
  }

  /** The first name that stops the loop: everything before it was handled. */
  lemma BlockedAt(s: Node, b: Node, names: seq<string>, i: nat)
    requires s.Dir? && b.Dir? && Increasing(Less, names) && forall k :: k in names <==> k in s.entries && !Hidden(k)
    requires i < |names| && !Bindable(s.entries[names[i]], b, names[i]) && !s.entries[names[i]].Other?
    requires forall k :: k in names[..i] ==> Bindable(s.entries[k], b, k)
    ensures Blocked(s, b)
  {
    hide Less;
    var k := names[i];
    assert k in names && forall n :: 0 <= n < i ==> names[..i][n] == names[n];
    forall f | f in s.entries && !Hidden(f) && s.entries[f].Other?
      ensures Less(k, f)
    {
      var n :| 0 <= n < |names| && names[n] == f;
    }
    assert BeforeSpecials(s, k);
  }

  /** All names before position i are bindable, and there is a special entry at i, if any. */
  lemma NotBlocked(s: Node, b: Node, names: seq<string>, i: nat)
    requires s.Dir? && b.Dir? && Increasing(Less, names) && forall k :: k in names <==> k in s.entries && !Hidden(k)
    requires i <= |names| && (i < |names| ==> s.entries[names[i]].Other?)
    requires forall k :: k in names[..i] ==> Bindable(s.entries[k], b, k)
    ensures !Blocked(s, b)
  {
    if i < |names| {
      assert names[i] in names;
    }
    forall k | k in s.entries && !Hidden(k) && !s.entries[k].Other? && BeforeSpecials(s, k)
      ensures Bindable(s.entries[k], b, k)
    {
      var n :| 0 <= n < |names| && names[n] == k;
      if n < i {
        assert names[..i][n] == k;
      } else {
        assert i < n ==> Less(names[i], k);
        LessIsStrictOrder(names[i], k, k);
      }
    }
  }

  /** Unmounting what was recorded will release every mount. */
  ghost predicate Tidy(staged: Node, b: Node)
    requires staged.Dir? && b.Dir?
  {
    !HasSpecial(staged) || NoEarlyBind(staged, b)
  }

  /** With names[i] the first special entry, the entries before it are those handled so far. */
  lemma EarlyIsHandled(s: Node, names: seq<string>, i: nat)
    requires s.Dir? && Increasing(Less, names) && forall k :: k in names <==> k in s.entries && !Hidden(k)
    requires i < |names| && s.entries[names[i]].Other? && forall j :: 0 <= j < i ==> !s.entries[names[j]].Other?
    ensures forall k :: k in s.entries && !Hidden(k) ==> (BeforeSpecials(s, k) <==> k in names[..i])
  {
    forall k | k in s.entries && !Hidden(k)
      ensures BeforeSpecials(s, k) <==> k in names[..i]
    {
      var j :| 0 <= j < |names| && names[j] == k;
      LessIsStrictOrder(k, names[i], k);
      if j < i {
        forall f | f in s.entries && !Hidden(f) && s.entries[f].Other?
          ensures Less(k, f)
        {
          var n :| 0 <= n < |names| && names[n] == f;
          assert i <= n;
        }
        assert names[..i][j] == k;
      } else {
        assert names[i] in names;
        assert j > i ==> Less(names[i], k);
        forall m | 0 <= m < i
          ensures names[m] != k
        {
          LessIsStrictOrder(names[m], k, k);
        }
      }
    }
  }

  lemma TopStart(b: Node)
    requires b.Dir?
    ensures View(b, []) == Graft(b, [], b) && At(b, []) == Some(b)
  {
  }

  lemma TopOverlay(b: Node, v: Node, n: Node)
    ensures Graft(v, [], n) == n
  {
  }

  lemma TopEnd(s: Node, b: Node, done: set<string>)
    requires s.Dir? && b.Dir?
    requires forall k :: k in s.entries && !Hidden(k) ==> k in done
    requires forall k :: k in done ==> k in s.entries && Bindable(s.entries[k], b, k)
    ensures Partial(s, b, done) == Descended(s, b)
    ensures !NeedsOverlay(s, b) && !HasSpecial(s)
  {
    PartialEnd(s, b, done);
  }

  lemma DetachNone(ms: seq<Mount>)
    ensures DetachAll(ms, []) == ms
  {
  }

  lemma {:induction false} DetachAllFirst(ms: seq<Mount>, p: Path, order: seq<Path>)
    ensures DetachAll(ms, [p] + order) == Detach(DetachAll(ms, order), p)
    decreases |order|
  {
    var all := [p] + order;
    if order == [] {
      assert all[..0] == [];
    } else {
      assert all[|all| - 1] == order[|order| - 1];
      assert all[..|all| - 1] == [p] + order[..|order| - 1];
      DetachAllFirst(Detach(ms, order[|order| - 1]), p, order[..|order| - 1]);
    }
  }

  lemma {:induction false} DetachAllStaysNonNested(ms: seq<Mount>, order: seq<Path>)
    requires NonNested(Paths(ms))
    ensures NonNested(Paths(DetachAll(ms, order)))
    decreases |order|
  {
    if order != [] {
      DetachNonNested(ms, order[|order| - 1]);
      DetachAllStaysNonNested(Detach(ms, order[|order| - 1]), order[..|order| - 1]);
    }
  }

  /** Unmounting what is on record empties a sound target; stopping early keeps it sound. */
  lemma UnmountedIsSound(ms: seq<Mount>, order: seq<Path>, recorded: seq<Path>)
    requires NonNested(Paths(ms)) && forall m :: m in ms ==> m.path in recorded
    requires forall p :: p in order <==> p in recorded
    ensures DetachAll(ms, order) == []
    ensures forall i :: 0 <= i <= |order| ==>
                          var left := DetachAll(ms, order[i..]);
                          NonNested(Paths(left)) && forall m :: m in left ==> m.path in recorded
  {
    DetachAllNonNested(ms, order);
    if DetachAll(ms, order) != [] {
      assert DetachAll(ms, order)[0] in DetachAll(ms, order);
    }
    forall i | 0 <= i <= |order|
      ensures var left := DetachAll(ms, order[i..]);
              NonNested(Paths(left)) && forall m :: m in left ==> m.path in recorded
    {
      DetachAllStaysNonNested(ms, order[i..]);
      DetachAllNonNested(ms, order[i..]);
    }
  }

  lemma {:induction false} MinimalPath(rest: set<Path>, p: Path) returns (q: Path)
    requires p in rest
    ensures q in rest && forall o :: o in rest ==> !(o < q)
    decreases |p|
  {
    if o :| o in rest && o < p {
      q := MinimalPath(rest, o);
    } else {
      q := p;
    }
  }

  /** Reading the state file back: sorted, without duplicates. Byte order is one order in
      which a directory precedes what lies below it; the proof holds for all of them. */
  method SortPaths(recorded: seq<Path>) returns (order: seq<Path>)
    ensures Sorted(order) && forall p :: p in order <==> p in recorded
  {
    order := [];
    var rest := set p | p in recorded;
    while rest != {}
      invariant Sorted(order)
      invariant forall p :: p in order || p in rest <==> p in recorded
      invariant forall p, i :: p in rest && 0 <= i < |order| ==> !(p <= order[i])
    {
      ghost var p0 :| p0 in rest;
      ghost var _ := MinimalPath(rest, p0);
      var p :| p in rest && forall o :: o in rest ==> !(o < p);
      forall q | q in rest && q <= p
        ensures q == p
      {
        assert |q| == |p| && q == p[..|q|];
      }
      order := order + [p];
      rest := rest - {p};
    }
  }

  /** The mounts made before the first special entry are those of the entries listed before it. */
  lemma EarlyEntries(s: Node, b: Node, names: seq<string>, i: nat)
    requires s.Dir? && b.Dir? && Increasing(Less, names)
    requires forall k :: k in names <==> k in s.entries && !Hidden(k)
    requires i < |names| && s.entries[names[i]].Other? && forall k :: k in names[..i] ==> !s.entries[k].Other?
    ensures HasSpecial(s)
    ensures NoEarlyBind(s, b) <==> forall k :: k in names[..i] ==> !EntryBinds(s, b, k)
  {
    hide BeforeSpecials, EntryBinds;
    assert names[i] in names;
    forall j | 0 <= j < i
      ensures !s.entries[names[j]].Other?
    {
      assert names[..i][j] == names[j];
    }
    EarlyIsHandled(s, names, i);
    assert forall k :: k in names[..i] ==> k in names;
  }

  lemma NothingSorted()
    ensures Sorted([])
  {
  }

  /** Binds followed by an overlay of the mount point itself. */
  ghost predicate RootOverlaid(ms: seq<Mount>, n: Node) {
    ms != [] && ms[|ms| - 1] == Mount([], n) && forall i :: 0 <= i < |ms| - 1 ==> ms[i].path != []
  }

  lemma RootOverlayPush(ms: seq<Mount>, done: set<string>, n: Node)
    requires Through(ms, [], done)
    ensures RootOverlaid(ms + [Mount([], n)], n) && Paths(ms + [Mount([], n)]) == Paths(ms) + [[]]
  {
    var all := ms + [Mount([], n)];
    forall i | 0 <= i < |all| - 1
      ensures all[i].path != []
    {
      assert all[i] == ms[i] && ms[i] in ms;
    }
  }

  /** A root overlay over other mounts nests them; on its own it is sound. */
  lemma RootOverlaySound(ms: seq<Mount>, n: Node)
    requires RootOverlaid(ms, n)
    ensures NonNested(Paths(ms)) <==> |ms| == 1
  {
    if |ms| > 1 {
      assert Paths(ms)[|ms| - 1] == [] && [] <= Paths(ms)[0];
    }
  }

  lemma PathsRecorded(ms: seq<Mount>)
    ensures forall m :: m in ms ==> m.path in Paths(ms)
  {
    forall m | m in ms
      ensures m.path in Paths(ms)
    {
      var i :| 0 <= i < |ms| && ms[i] == m;
      assert Paths(ms)[i] == m.path;
    }
  }

  /** Mounts and visible tree of a directory whose entries in `done` have been handled. */
  ghost predicate LevelState(b: Node, p: Path, done: set<string>, added: seq<Mount>, shown: Node)
    requires b.Dir?
  {
    NonNested(Paths(added)) && Through(added, p, done) && shown.Dir? && Reworked(shown, b, done)
  }

  /** The handled entries show what they should, and mounts were made only if they had to. */
  ghost predicate LevelExact(s: Node, b: Node, done: set<string>, added: seq<Mount>, shown: Node)
    requires s.Dir? && b.Dir?
  {
    && shown == Partial(s, b, done) && (forall k :: k in done ==> k in s.entries)
    && (added == [] <==> forall k :: k in done && k in s.entries ==> !EntryBinds(s, b, k))
  }

  lemma LevelStart(s: Node, b: Node, p: Path)
    requires s.Dir? && b.Dir?
    ensures LevelState(b, p, {}, [], b) && LevelExact(s, b, {}, [], b)
  {
    PartialStart(s, b);
  }

  lemma LevelBelow(b: Node, p: Path, done: set<string>, added: seq<Mount>, shown: Node)
    requires b.Dir? && LevelState(b, p, done, added, shown)
    ensures NonNested(Paths(added)) && Below(added, p) && Through(added, p, done)
  {
  }

  lemma LevelNext(s: Node, b: Node, x: Node, done: set<string>, k: string, y: Node)
    requires s.Dir? && b.Dir? && k in b.entries && Reworked(x, b, done)
    ensures x.Dir? && Reworked(Dir(x.entries[k := y]), b, done + {k})
    ensures x == Partial(s, b, done) && y == ShownEntry(s, b, k) ==> Dir(x.entries[k := y]) == Partial(s, b, done + {k})
  {
    hide ShownEntry;
    PartialStep(s, b, done, k);
  }

  lemma OverlayBinds(s: Node, b: Node)
    requires s.Dir? && b.Dir?
    ensures NeedsOverlay(s, b) ==> Binds(s, b) && Shown(s, b) == Merge(s, b)
  {
  }

  /** A directory handled entry by entry: all visible names are listed and bindable. */
  lemma BindsIff(s: Node, b: Node, names: seq<string>)
    requires s.Dir? && b.Dir? && forall k :: k in names <==> k in s.entries && !Hidden(k)
    requires forall k :: k in names ==> Bindable(s.entries[k], b, k)
    ensures !NeedsOverlay(s, b) && Partial(s, b, set k | k in names) == Shown(s, b)
    ensures Binds(s, b) <==> exists k :: k in names && EntryBinds(s, b, k)
  {
    hide ShownEntry, EntryBinds;
    PartialEnd(s, b, set k | k in names);
  }

  // ----- staging -----

  /** Each layer meets the ones below it as a plain copy allows. */
  ghost predicate StagesWell(layers: seq<Node>) {
    forall i :: 0 <= i < |layers| ==> Compatible(layers[i], Stacked(layers[..i], Dir(map[])))
  }

  /** Composing the layers first and laying them over the base afterwards is the overlay. */
  lemma {:induction false} StagedOverBase(layers: seq<Node>, base: Node)
    requires base.Dir? && StagesWell(layers)
    ensures Merge(Stacked(layers, Dir(map[])), base) == Stacked(layers, base)
  {
    if layers == [] {
      assert Merge(Dir(map[]), base).entries == base.entries;
    } else {
      var init, top := layers[..|layers| - 1], layers[|layers| - 1];
      assert forall i :: 0 <= i < |init| ==> layers[..i] == init[..i];
      StagedOverBase(init, base);
      MergeAssociates(top, Stacked(init, Dir(map[])), base);
    }
  }

  lemma {:induction false} StackedHasNoDotNames(layers: seq<Node>)
    requires forall l :: l in layers ==> NoDotNames(l)
    ensures NoDotNames(Stacked(layers, Dir(map[])))
  {
    hide Merge;
    if layers != [] {
      var init := layers[..|layers| - 1];
      assert layers[|layers| - 1] in layers && forall l :: l in init ==> l in layers;
      StackedHasNoDotNames(init);
      MergeHasNoDotNames(layers[|layers| - 1], Stacked(init, Dir(map[])));
    }
  }

  lemma StageOneMore(layers: seq<Node>, i: nat)
    requires i < |layers|
    ensures StagesWell(layers[..i + 1]) ==> StagesWell(layers[..i]) && Compatible(layers[i], Stacked(layers[..i], Dir(map[])))
    ensures Stacked(layers[..i + 1], Dir(map[])) == Merge(layers[i], Stacked(layers[..i], Dir(map[])))
  {
    var ls := layers[..i + 1];
    assert ls[..i] == layers[..i] && ls[i] == layers[i];
    forall j | 0 <= j < i
      ensures layers[..i][..j] == ls[..j] && layers[..i][j] == ls[j]
    {
    }
  }

  /** copyLayerIntoUpper for each layer in turn. The copy may fail; where a layer meets
      something it cannot replace, nothing is known of the result. */
  method Stage(layers: seq<Node>) returns (ok: bool, staged: Node)
    requires forall l :: l in layers ==> l.Dir?
    ensures staged.Dir?
    ensures ok && StagesWell(layers) ==> staged == Stacked(layers, Dir(map[]))
  {
    hide StagesWell;
    staged := Dir(map[]);
    for i := 0 to |layers|
      invariant staged.Dir? && (StagesWell(layers[..i]) ==> staged == Stacked(layers[..i], Dir(map[])))
    {
      var copied := *;
      if !copied {
        return false, staged;
      }
      StageOneMore(layers, i);
      assert layers[i] in layers;
      if Compatible(layers[i], staged) {
        staged := Merge(layers[i], staged);
      } else {
        var entries: map<string, Node> := *;
        staged := Dir(entries);
      }
    }
    assert layers[..|layers|] == layers;
    ok := true;
  }

  /** How an application ends: the tracked mounts could not all be released, nothing new
      stays mounted, the new mounts were undone because they could not be recorded, or they
      are in place. */
  datatype Outcome = StillMounted | NothingMounted | NotRecorded | Applied

  /** One overlay target: its base content, its live mounts and its state file. `refused`
      counts the unmounts the kernel has refused, `failed` the other operations that reported a
      failure (mounts, lstat, copies, saves), `unseen` the failures nobody notices: a read or a
      directory listing that failed and was taken for an empty one, or a state file whose end
      was lost when it was closed. */
  class Target {
    const base: Node
    var live: seq<Mount>
    var recorded: seq<Path>
    var refused: nat
    var failed: nat
    var unseen: nat

    constructor (base: Node)
      ensures this.base == base && live == [] && recorded == [] && refused == 0 && failed == 0 && unseen == 0
    {
      this.base := base;
      live, recorded, refused, failed, unseen := [], [], 0, 0, 0;
    }

    /** A step whose outcome only the system decides: lstat of a staged entry, a copy. */
    method Try() returns (ok: bool)
      modifies this`failed
      ensures failed == old(failed) + if ok then 0 else 1
    {
      ok := *;
      if !ok {
        failed := failed + 1;
      }
    }

    /** A bind or overlay mount; the kernel may refuse. */
    method Attach(p: Path, n: Node) returns (ok: bool)
      modifies this`live, this`failed
      ensures live == if ok then old(live) + [Mount(p, n)] else old(live)
      ensures failed == old(failed) + if ok then 0 else 1
    {
      ok := Try();
      if ok {
        live := live + [Mount(p, n)];
      }
    }

    method Unmount(p: Path) returns (ok: bool)
      modifies this`live, this`refused
      ensures live == if ok then Detach(old(live), p) else old(live)
      ensures refused == if ok then old(refused) else old(refused) + 1
    {
      ok := *;
      if ok {
        live := Detach(live, p);
      } else {
        refused := refused + 1;
      }
    }

    /** Writing the state file in place: a failure may leave the old list or the start of the
        new one, and the end of the new one may be lost unseen. */
    method SaveState(paths: seq<Path>) returns (ok: bool)
      modifies this`recorded, this`failed, this`unseen
      ensures failed == old(failed) + if ok then 0 else 1
      ensures unseen >= old(unseen) && (paths == [] ==> unseen == old(unseen))
      ensures ok && unseen == old(unseen) ==> recorded == paths
      ensures ok ==> recorded <= paths
      ensures !ok ==> unseen == old(unseen) && (recorded == old(recorded) || recorded <= paths)
    {
      ok := Try();
      var started: bool := *;
      if ok || started {
        var kept :| 0 <= kept <= |paths|;
        recorded := paths[..kept];
        if ok && kept < |paths| {
          unseen := unseen + 1;
        }
      }
    }

    /** loadBindMountState: an unreadable file is an empty list. */
    method LoadState() returns (paths: seq<Path>)
      modifies this`unseen
      ensures unseen >= old(unseen) && paths == if unseen == old(unseen) then recorded else []
    {
      var readable: bool := *;
      if readable {
        return recorded;
      }
      unseen := unseen + 1;
      paths := [];
    }

    /** listDir(..., false): a directory that cannot be opened looks empty. */
    method ListDir(entries: map<string, Node>) returns (names: seq<string>)
      modifies this`unseen
      ensures unseen >= old(unseen) && Increasing(Less, names)
      ensures forall k :: k in names ==> k in entries && !Hidden(k)
      ensures unseen == old(unseen) ==> forall k :: k in entries && !Hidden(k) ==> k in names
    {
      var readable: bool := *;
      if readable {
        names := SortedNames(entries);
      } else {
        unseen := unseen + 1;
        names := [];
      }
    }

    /** applyBindBackendRecursively: stages s over the directory at p. Every mount made is
        appended to mountedNow, also when the call fails part-way. Where p shows the base
        before the call (`clear`), it shows `shown` after it: the merged tree, as long as
        nothing failed unseen. */
    method ApplyRecursively(s: Node, p: Path, mountedNow: seq<Path>, ghost clear: bool)
      returns (ok: bool, mounted: seq<Path>, ghost added: seq<Mount>, ghost shown: Node)
      requires At(base, p).Some? && At(base, p).value.Dir?
      requires clear ==> At(View(base, live), p) == At(base, p)
      modifies this`live, this`failed, this`unseen
      ensures unseen >= old(unseen) && failed >= old(failed) && (ok ==> failed == old(failed))
      ensures live == old(live) + added && mounted == mountedNow + Paths(added)
      ensures NonNested(Paths(added)) && Below(added, p)
      ensures ok ==> s.Dir?
      ensures !ok && clear && s.Dir? ==> failed > old(failed)
      ensures ok && clear ==> View(base, live) == Graft(View(base, old(live)), p, shown)
      ensures ok && clear && unseen == old(unseen) ==>
                shown == Shown(s, At(base, p).value) && (added == [] <==> !Binds(s, At(base, p).value))
      decreases s, 0
    {
      hide View, Descended, Merge, Graft, Binds, EntryBinds, NeedsOverlay;
      mounted, added := mountedNow, [];
      var b := At(base, p).value;
      shown := b;
      var visible := At(View(base, live), p);
      if !s.Dir? || visible.None? || !visible.value.Dir? {
        return false, mounted, added, shown;
      }
      var t := visible.value;
      if clear {
        GraftSame(View(base, live), p, b);
      }
      ghost var unseen0 := unseen;
      var names := ListDir(s.entries);
      if names == [] {
        if unseen == unseen0 {
          NothingListed(s, b);
          BindsIff(s, b, names);
        }
        return true, mounted, added, shown;
      }
      var needOverlayHere := ScanLevel(s, b, t, names);
      if needOverlayHere {
        ViewPush(base, live, Mount(p, Merge(s, b)));
        ok := Attach(p, Merge(s, b));
        if ok {
          mounted, added, shown := mounted + [p], [Mount(p, Merge(s, b))], Merge(s, b);
        }
        OverlayBinds(s, b);
        return ok, mounted, added, shown;
      }
      ok, mounted, added, shown := ApplyEntries(s, b, p, names, mountedNow, clear);
      if unseen == unseen0 {
        BindsIff(s, b, names);
      }
    }

    /** The second pass over a directory: one mount or one descent per entry. */
    method ApplyEntries(s: Node, b: Node, p: Path, names: seq<string>, mountedNow: seq<Path>, ghost clear: bool)
      returns (ok: bool, mounted: seq<Path>, ghost added: seq<Mount>, ghost shown: Node)
      requires At(base, p) == Some(b) && s.Dir? && b.Dir? && Increasing(Less, names)
      requires clear ==> At(View(base, live), p) == Some(b)
      requires forall k :: k in names ==> k in s.entries && !Hidden(k) && Bindable(s.entries[k], b, k)
      modifies this`live, this`failed, this`unseen
      ensures unseen >= old(unseen) && failed >= old(failed) && (ok ==> failed == old(failed))
      ensures live == old(live) + added && mounted == mountedNow + Paths(added)
      ensures NonNested(Paths(added)) && Below(added, p) && (!ok && clear ==> failed > old(failed))
      ensures ok && clear ==> View(base, live) == Graft(View(base, old(live)), p, shown)
      ensures ok && clear && unseen == old(unseen) ==>
                && shown == Partial(s, b, set k | k in names)
                && (added == [] <==> forall k :: k in names ==> !EntryBinds(s, b, k))
      decreases s, 0, 2
    {
      hide View, Graft, At, Partial, EntryBinds, LevelState;
      mounted, added := mountedNow, [];
      ghost var v0, done := View(base, live), {};
      shown := b;
      if clear {
        GraftSame(v0, p, b);
      }
      LevelStart(s, b, p);
      IncreasingDiffer(names);
      var i := 0;
      while i < |names|
        invariant 0 <= i <= |names| && unseen >= old(unseen) && failed == old(failed)
        invariant forall k :: k in done <==> k in names[..i]
        invariant live == old(live) + added && mounted == mountedNow + Paths(added)
        invariant LevelState(b, p, done, added, shown)
        invariant clear ==> View(base, live) == Graft(v0, p, shown)
        invariant clear && unseen == old(unseen) ==> LevelExact(s, b, done, added, shown)
      {
        var k := names[i];
        assert k in names && k !in names[..i];
        LevelBelow(b, p, done, added, shown);
        var statOk := Try();
        if !statOk {
          return false, mounted, added, shown;
        }
        ok, mounted, added, shown := ApplyNext(s, b, p, k, mounted, old(live), mountedNow, done, added, shown,
                                               v0, clear, unseen == old(unseen));
        if !ok {
          return false, mounted, added, shown;
        }
        done := done + {k};
        i := i + 1;
      }
      LevelBelow(b, p, done, added, shown);
      assert done == (set k | k in names);
      return true, mounted, added, shown;
    }

    /** One entry of a directory whose entries in `done` have been handled. */
    method ApplyNext(s: Node, b: Node, p: Path, k: string, mounted0: seq<Path>,
                     ghost live0: seq<Mount>, ghost paths0: seq<Path>, ghost done: set<string>,
                     ghost added0: seq<Mount>, ghost shown0: Node, ghost v0: Node, ghost clear: bool, ghost exact: bool)
      returns (ok: bool, mounted: seq<Path>, ghost added: seq<Mount>, ghost shown: Node)
      requires At(base, p) == Some(b) && s.Dir? && b.Dir? && (clear ==> At(v0, p).Some?)
      requires k in s.entries && !Hidden(k) && Bindable(s.entries[k], b, k) && k !in done
      requires live == live0 + added0 && mounted0 == paths0 + Paths(added0)
      requires LevelState(b, p, done, added0, shown0)
      requires clear ==> View(base, live) == Graft(v0, p, shown0)
      requires clear && exact ==> LevelExact(s, b, done, added0, shown0)
      modifies this`live, this`failed, this`unseen
      ensures unseen >= old(unseen) && failed >= old(failed) && (ok ==> failed == old(failed))
      ensures live == live0 + added && mounted == paths0 + Paths(added)
      ensures NonNested(Paths(added)) && Below(added, p) && (!ok && clear ==> failed > old(failed))
      ensures ok ==> LevelState(b, p, done + {k}, added, shown)
      ensures ok && clear ==> View(base, live) == Graft(v0, p, shown)
      ensures ok && clear && exact && unseen == old(unseen) ==> LevelExact(s, b, done + {k}, added, shown)
      decreases s, 0, 1
    {
      hide View, Graft, At, Partial, EntryBinds, ShownEntry, Merge, Binds, Reworked;
      if clear {
        LevelStep(v0, p, b, shown0, done, k, b.entries[k]);
      }
      AtChild(base, p, b, k);
      ghost var more, entry;
      ok, mounted, more, entry := ApplyEntry(s, b, p, k, mounted0, clear);
      JoinThrough(added0, p, done, more, k);
      added, shown := added0 + more, shown0;
      PathsJoin(live0, paths0, added0, more);
      if ok {
        if clear {
          LevelStep(v0, p, b, shown0, done, k, entry);
        }
        LevelNext(s, b, shown0, done, k, entry);
        shown := Dir(shown0.entries[k := entry]);
      }
    }

    method ApplyEntry(s: Node, b: Node, p: Path, k: string, mountedNow: seq<Path>, ghost clear: bool)
      returns (ok: bool, mounted: seq<Path>, ghost added: seq<Mount>, ghost shown: Node)
      requires s.Dir? && b.Dir? && k in s.entries && !Hidden(k) && Bindable(s.entries[k], b, k)
      requires At(base, p + [k]) == Some(b.entries[k])
      requires clear ==> At(View(base, live), p + [k]) == Some(b.entries[k])
      modifies this`live, this`failed, this`unseen
      ensures unseen >= old(unseen) && failed >= old(failed) && (ok ==> failed == old(failed))
      ensures live == old(live) + added && mounted == mountedNow + Paths(added)
      ensures NonNested(Paths(added)) && Below(added, p + [k]) && (!ok && clear ==> failed > old(failed))
      ensures ok && clear ==> View(base, live) == Graft(View(base, old(live)), p + [k], shown)
      ensures ok && clear && unseen == old(unseen) ==>
                shown == ShownEntry(s, b, k) && (added == [] <==> !EntryBinds(s, b, k))
      decreases s, 0, 0
    {
      if s.entries[k].Dir? {
        ok, mounted, added, shown := ApplyRecursively(s.entries[k], p + [k], mountedNow, clear);
      } else {
        var m := Mount(p + [k], s.entries[k]);
        ViewPush(base, live, m);
        ok := Attach(m.path, m.node);
        mounted, added, shown := mountedNow, [], m.node;
        if ok {
          mounted, added := mounted + [m.path], [m];
        }
      }
    }

    /** The loop over the staged top level. Directories and files need a counterpart in the
        partition; the first special entry overlays the whole mount point and ends the loop,
        after the mounts of the entries listed before it. */
    method ApplyTop(staged: Node, ghost clear: bool) returns (ok: bool, mounted: seq<Path>, ghost added: seq<Mount>)
      requires staged.Dir? && base.Dir? && (clear ==> live == [])
      modifies this`live, this`failed, this`unseen
      ensures unseen >= old(unseen) && failed >= old(failed) && (ok ==> failed == old(failed))
      ensures live == old(live) + added && mounted == Paths(added)
      ensures clear && unseen == old(unseen) ==> (ok <==> failed == old(failed) && !Blocked(staged, base))
      ensures ok && clear && unseen == old(unseen) && HasSpecial(staged) ==>
                && View(base, live) == Merge(staged, base)
                && RootOverlaid(added, Merge(staged, base)) && (|added| == 1 <==> NoEarlyBind(staged, base))
      ensures ok && clear && unseen == old(unseen) && !HasSpecial(staged) ==>
                !NeedsOverlay(staged, base) && View(base, live) == Descended(staged, base) && NonNested(Paths(added))
    {
      hide Shown, Partial, View, Graft, At, Descended, Merge, EntryBinds, LevelState, HasSpecial, NoEarlyBind;
      hide RootOverlaid, NeedsOverlay, Blocked;
      mounted, added := [], [];
      ghost var unseen0, failed0 := unseen, failed;
      var names := ListDir(staged.entries);
      ghost var done, shown: Node := {}, base;
      LevelStart(staged, base, []);
      TopStart(base);
      IncreasingDiffer(names);
      var i := 0;
      while i < |names|
        invariant 0 <= i <= |names| && unseen >= unseen0 && failed == failed0
        invariant unseen == unseen0 ==> forall k :: k in staged.entries && !Hidden(k) ==> k in names
        invariant forall k :: k in done <==> k in names[..i]
        invariant forall k :: k in done ==> Bindable(staged.entries[k], base, k)
        invariant live == old(live) + added && mounted == Paths(added)
        invariant LevelState(base, [], done, added, shown)
        invariant clear ==> View(base, live) == Graft(base, [], shown)
        invariant clear && unseen == unseen0 ==> LevelExact(staged, base, done, added, shown)
      {
        var k := names[i];
        assert k in names && k !in names[..i];
        LevelBelow(base, [], done, added, shown);
        var entry := staged.entries[k];
        var statOk := Try();
        if !statOk {
          return false, mounted, added;
        }
        if entry.Other? {
          if unseen == unseen0 {
            EarlyEntries(staged, base, names, i);
            NotBlocked(staged, base, names, i);
          }
          ok, mounted, added := ApplyOverRoot(staged, mounted, old(live), added, done);
          return ok, mounted, added;
        }
        if !Bindable(entry, base, k) {
          if unseen == unseen0 {
            BlockedAt(staged, base, names, i);
          }
          return false, mounted, added;
        }
        ok, mounted, added, shown := ApplyNext(staged, base, [], k, mounted, old(live), [], done, added, shown,
                                               base, clear, unseen == unseen0);
        if !ok {
          return false, mounted, added;
        }
        done := done + {k};
        i := i + 1;
      }
      LevelBelow(base, [], done, added, shown);
      if unseen == unseen0 {
        assert forall k :: k in names ==> k in done;
        NotBlocked(staged, base, names, |names|);
        TopEnd(staged, base, done);
        TopOverlay(base, base, shown);
      }
      return true, mounted, added;
    }

    /** The fallback overlay of the whole mount point. */
    method ApplyOverRoot(staged: Node, mounted0: seq<Path>,
                         ghost live0: seq<Mount>, ghost added0: seq<Mount>, ghost done: set<string>)
      returns (ok: bool, mounted: seq<Path>, ghost added: seq<Mount>)
      requires live == live0 + added0 && mounted0 == Paths(added0) && Through(added0, [], done)
      modifies this`live, this`failed
      ensures live == live0 + added && mounted == Paths(added) && failed == old(failed) + if ok then 0 else 1
      ensures ok ==>
                && |added| == |added0| + 1 && View(base, live) == Merge(staged, base)
                && RootOverlaid(added, Merge(staged, base))
    {
      hide View, Merge, RootOverlaid;
      var m := Mount([], Merge(staged, base));
      ViewPush(base, live, m);
      TopOverlay(base, View(base, live), m.node);
      RootOverlayPush(added0, done, m.node);
      ok := Attach(m.path, m.node);
      mounted, added := mounted0, added0;
      if ok {
        mounted, added := mounted + [[]], added + [m];
      }
    }

    /** The rollback lambda: newest mount first, failures ignored. */
    method Rollback(mountedNow: seq<Path>, ghost kept: seq<Mount>, ghost added: seq<Mount>)
      requires live == kept + added && mountedNow == Paths(added)
      modifies this`live, this`refused
      ensures old(refused) <= refused && (refused == old(refused) ==> live == kept)
    {
      var i := |mountedNow|;
      while i > 0
        invariant 0 <= i <= |mountedNow| && old(refused) <= refused
        invariant refused == old(refused) ==> live == kept + added[..i]
      {
        i := i - 1;
        if refused == old(refused) {
          assert kept + added[..i + 1] == (kept + added[..i]) + [added[i]];
          DetachLast(kept + added[..i], added[i]);
        }
        var _ := Unmount(mountedNow[i]);
      }
    }

    /** unmountTrackedBindMounts. With an unreadable state file nothing is unmounted, and
        the record is emptied all the same. */
    method UnmountTracked() returns (ok: bool, ghost order: seq<Path>)
      modifies this
      ensures old(refused) <= refused && old(unseen) <= unseen && Sorted(order)
      ensures if unseen == old(unseen) then forall p :: p in order <==> p in old(recorded) else order == []
      ensures ok <==> refused == old(refused) && failed == old(failed)
      ensures failed >= old(failed)
      ensures ok ==> recorded == [] && live == DetachAll(old(live), order)
      ensures !ok ==>
                || (recorded == old(recorded) && exists i: nat :: i <= |order| && live == DetachAll(old(live), order[i..]))
                || (recorded == [] && live == DetachAll(old(live), order))
    {
      hide DetachAll, Detach, Sorted;
      NothingSorted();
      var listed := LoadState();
      var tracked := SortPaths(listed);
      DetachNone(live);
      order := tracked;
      assert listed == [] ==> order == [] by { assert order != [] ==> order[0] in order; }
      var i := |tracked|;
      assert tracked[i..] == [];
      ghost var unseen0 := unseen;
      while i > 0
        invariant 0 <= i <= |tracked| && unseen == unseen0 && failed == old(failed)
        invariant recorded == old(recorded) && refused == old(refused) && live == DetachAll(old(live), tracked[i..])
      {
        var gone := Unmount(tracked[i - 1]);
        if !gone {
          return false, order;
        }
        i := i - 1;
        assert tracked[i..] == [tracked[i]] + tracked[i + 1..];
        DetachAllFirst(old(live), tracked[i], tracked[i + 1..]);
      }
      assert tracked[0..] == tracked;
      ok := SaveState([]);
    }

    /** No mount lies under another, and every live mount is on record. */
    ghost predicate Sound()
      reads this
    {
      NonNested(Paths(live)) && forall m :: m in live ==> m.path in recorded
    }

    /** applyBindMountBackendForTarget. The clauses speak of calls in which nothing failed
        unseen; the last one says what a failed read of the state file does. */
    method Apply(layers: seq<Node>) returns (r: Outcome)
      requires Sound() && base.Dir? && forall l :: l in layers ==> l.Dir?
      modifies this
      ensures old(refused) <= refused && old(unseen) <= unseen && old(failed) <= failed
      ensures unseen == old(unseen) && StagesWell(layers) ==>
                (r == Applied <==> refused == old(refused) && failed == old(failed) && !BlockedStack(layers, base))
      ensures r == StillMounted && unseen == old(unseen) ==> Sound()
      ensures r == NothingMounted && refused == old(refused) && unseen == old(unseen) ==> live == [] && recorded == Paths(live)
      ensures r == NotRecorded && refused == old(refused) && unseen == old(unseen) ==> live == []
      ensures r == Applied && unseen == old(unseen) ==> recorded == Paths(live)
      ensures r == Applied && unseen == old(unseen) && layers != [] && StagesWell(layers) ==>
                var staged := Stacked(layers, Dir(map[]));
                && (View(base, live) == Stacked(layers, base) <==> HasSpecial(staged) || HarmlessEntries(staged, base))
                && (HasSpecial(staged) ==>
                      RootOverlaid(live, Merge(staged, base)) && (|live| == 1 <==> NoEarlyBind(staged, base)))
                && (Sound() <==> Tidy(staged, base))
      ensures && r == Applied && unseen == old(unseen) && layers != [] && StagesWell(layers)
              && (forall l :: l in layers ==> NoDotNames(l))
              ==> View(base, live) == Stacked(layers, base)
      ensures r == Applied && layers == [] ==>
                recorded == [] && live == if unseen == old(unseen) then [] else old(live)
    {
      hide View, Merge, Descended, HarmlessEntries, DetachAll, NeedsOverlay, Sorted, Stacked, StagesWell;
      hide HasSpecial, NoEarlyBind, NoDotNames, Blocked;
      ghost var order;
      var unmounted;
      ghost var live0, unseen0 := live, unseen;
      unmounted, order := UnmountTracked();
      if unseen == unseen0 {
        UnmountedIsSound(live0, order, old(recorded));
      } else {
        DetachNone(live0);
      }
      if !unmounted {
        return StillMounted;
      }
      if layers == [] {
        NothingBlocked(base);
        return Applied;
      }
      var stagingOk, staged := Stage(layers);
      if !stagingOk {
        failed := failed + 1;
        return NothingMounted;
      }
      if StagesWell(layers) {
        StagedOverBase(layers, base);
      }
      ghost var kept := live;
      var ok, mounted;
      ghost var added;
      ok, mounted, added := ApplyTop(staged, unseen == unseen0);
      if ok {
        var saved := SaveState(mounted);
        if saved {
          if unseen == unseen0 {
            assert live == added;
            if HasSpecial(staged) {
              RootOverlaySound(added, Merge(staged, base));
            } else {
              DescendedIsMergeIff(staged, base);
            }
            if StagesWell(layers) && forall l :: l in layers ==> NoDotNames(l) {
              StackedHasNoDotNames(layers);
              NoHiddenIsHarmless(staged, base);
            }
            PathsRecorded(live);
          }
          return Applied;
        }
      }
      Rollback(mounted, kept, added);
      return if ok then NotRecorded else NothingMounted;
    }
  }

  lemma {:induction false} StackedPlain(layers: seq<Node>)
    requires forall l :: l in layers ==> l.Dir? && !HasSpecial(l)
    ensures var staged := Stacked(layers, Dir(map[])); staged.Dir? && !HasSpecial(staged)
  {
    if layers != [] {
      var init := layers[..|layers| - 1];
      assert layers[|layers| - 1] in layers;
      StackedPlain(init);
      var top, below := layers[|layers| - 1], Stacked(init, Dir(map[]));
      forall k | k in Merge(top, below).entries && !Hidden(k)
        ensures !Merge(top, below).entries[k].Other?
      {
      }
    }
  }

  lemma {:induction false} StackedDir(layers: seq<Node>)
    requires forall l :: l in layers ==> l.Dir?
    ensures Stacked(layers, Dir(map[])).Dir?
  {
    if layers != [] {
      assert layers[|layers| - 1] in layers;
      StackedDir(layers[..|layers| - 1]);
    }
  }

  /** Layers that stage without a clash into a tree whose mounts can be released again. */
  ghost predicate Releasable(layers: seq<Node>, base: Node)
    requires base.Dir? && forall l :: l in layers ==> l.Dir?
  {
    StackedDir(layers);
    StagesWell(layers) && Tidy(Stacked(layers, Dir(map[])), base)
  }

  /** Layers without special entries that stage without a clash can always be released. */
  lemma PlainIsReleasable(layers: seq<Node>, base: Node)
    requires base.Dir? && StagesWell(layers) && forall l :: l in layers ==> l.Dir? && !HasSpecial(l)
    ensures Releasable(layers, base)
  {
    hide HasSpecial, NoEarlyBind, StagesWell, Stacked;
    StackedDir(layers);
    StackedPlain(layers);
  }

  /** Any number of applications in a row, each with arbitrary faults: while the kernel
      refuses no unmount and no failure goes unseen, no mount is ever live without being on
      record. */
  method ApplyMany(t: Target, stacks: seq<seq<Node>>)
    requires t.Sound() && t.base.Dir?
    requires forall ls, l :: ls in stacks && l in ls ==> l.Dir?
    requires forall ls :: ls in stacks ==> Releasable(ls, t.base)
    modifies t
    ensures t.refused == old(t.refused) && t.unseen == old(t.unseen) ==> t.Sound()
  {
    hide StagesWell, Tidy, Stacked;
    var refused0, unseen0 := t.refused, t.unseen;
    for i := 0 to |stacks|
      invariant t.refused == refused0 && t.unseen == unseen0 && t.Sound()
    {
      assert stacks[i] in stacks && Releasable(stacks[i], t.base);
      var _ := t.Apply(stacks[i]);
      if t.refused != refused0 || t.unseen != unseen0 {
        return;
      }
    }
  }

  /** Mounting a stack of layers and releasing it again: every mount goes exactly if the
      staged tree is tidy, a condition on the layers and the base alone. */
  method ApplyAndRelease(t: Target, layers: seq<Node>) returns (applied: bool, released: bool)
    requires t.Sound() && t.base.Dir? && layers != [] && (forall l :: l in layers ==> l.Dir?) && StagesWell(layers)
    modifies t
    ensures applied && released && t.unseen == old(t.unseen) ==> (t.live == [] <==> Releasable(layers, t.base))
  {
    hide Stacked, StagesWell, Tidy, DetachAll, NonNested, View, HarmlessEntries;
    StackedDir(layers);
    ghost var staged, unseen0 := Stacked(layers, Dir(map[])), t.unseen;
    var r := t.Apply(layers);
    if r != Applied {
      return false, false;
    }
    ghost var live, recorded, order := t.live, t.recorded, [];
    released, order := t.UnmountTracked();
    applied := true;
    if released && t.unseen == unseen0 {
      ReleasedIff(live, recorded, order, staged, t.base);
    }
  }

  lemma ReleasedIff(live: seq<Mount>, recorded: seq<Path>, order: seq<Path>, staged: Node, base: Node)
    requires staged.Dir? && base.Dir? && recorded == Paths(live)
    requires NonNested(Paths(live)) <==> Tidy(staged, base)
    requires HasSpecial(staged) ==> RootOverlaid(live, Merge(staged, base))
    requires Sorted(order) && forall p :: p in order <==> p in recorded
    ensures DetachAll(live, order) == [] <==> Tidy(staged, base)
  {
    hide DetachAll, Sorted, HasSpecial, NoEarlyBind;
    PathsRecorded(live);
    if NonNested(Paths(live)) {
      UnmountedIsSound(live, order, recorded);
      assert order[0..] == order;
    } else {
      OverlaidLeaks(live, order, Merge(staged, base));
    }
  }

  lemma OverlaidLeaks(live: seq<Mount>, order: seq<Path>, n: Node)
    requires RootOverlaid(live, n) && !NonNested(Paths(live))
    requires Sorted(order) && forall p :: p in order <==> p in Paths(live)
    ensures DetachAll(live, order) != []
  {
    hide DetachAll, Sorted;
    RootOverlaySound(live, n);
    var binds := live[..|live| - 1];
    assert live == binds + [Mount([], n)];
    assert Paths(live)[|live| - 1] == [];
    RootOverlayLeaks(binds, n, order);
  }

  const LEAKING_LAYER: Node := Dir(map["a" := File("new"), "b" := Other("link")])
  const LEAKING_BASE: Node := Dir(map["a" := File("old")])

  lemma AThenB()
    ensures Less("a", "b")
  {
  }

  /** A staged file followed by a symbolic link: the link overlays the mount point over the
      bind of the file, which is then never released. */
  lemma LeakExample()
    ensures StagesWell([LEAKING_LAYER]) && !Releasable([LEAKING_LAYER], LEAKING_BASE)
  {
    hide Less;
    var s, none: Node := LEAKING_LAYER, Dir(map[]);
    StackedDir([s]);
    assert [s][..0] == [] && Stacked([], none) == none;
    assert Stacked([s], none) == Merge(s, none);
    assert Merge(s, none).entries == s.entries;
    assert "b" in s.entries && s.entries["b"].Other?;
    AThenB();
    assert BeforeSpecials(s, "a");
    assert EntryBinds(s, LEAKING_BASE, "a");
  }

  /** The end of an application whose save fails after it wrote the list: the mount is undone,
      and stays on record. */
  method StaleRecordExample() returns (t: Target, bound: bool, saved: bool)
    ensures bound && !saved && t.refused == 0 && t.recorded != [] ==>
              t.live == [] && t.recorded == [["a"]] != Paths(t.live)
  {
    t := new Target(LEAKING_BASE);
    bound := t.Attach(["a"], File("new"));
    saved := t.SaveState([["a"]]);
    if bound && !saved {
      assert t.live == [] + [Mount(["a"], File("new"))];
      assert Paths([Mount(["a"], File("new"))]) == [["a"]];
      t.Rollback([["a"]], [], [Mount(["a"], File("new"))]);
    }
  }

  /** A state file that cannot be read loses every mount it listed: nothing is unmounted, and
      the file is emptied all the same. */
  method MisreadExample() returns (t: Target, applied: bool, cleared: bool)
    ensures applied && cleared && t.unseen == 1 ==> |t.live| == 1 && t.recorded == [] && !t.Sound()
  {
    t := new Target(LEAKING_BASE);
    var bound := t.Attach(["a"], File("new"));
    var saved := t.SaveState([["a"]]);
    applied := bound && saved && t.unseen == 0;
    if !applied {
      return t, false, false;
    }
    var r := t.Apply([]);
    cleared := r == Applied;
    assert t.live != [] ==> t.live[0] in t.live;
  }
}
