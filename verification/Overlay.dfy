/** Directory trees, the overlayfs meaning of stacked layers, and what the bind backend
    shows instead. */
module Overlay {
  import opened Wrappers

  /** Other stands for symbolic links and special files. */
  datatype Node = Dir(entries: map<string, Node>) | File(data: string) | Other(data: string)

  /** overlayfs: directories merge, anything else in the upper layer hides the lower one. */
  function Merge(upper: Node, lower: Node): Node {
    if upper.Dir? && lower.Dir? then
      Dir(map k | k in upper.entries.Keys + lower.entries.Keys ::
            if k !in lower.entries then upper.entries[k]
            else if k !in upper.entries then lower.entries[k]
            else Merge(upper.entries[k], lower.entries[k]))
    else upper
  }

  /** Ln over ... over L1 over base. */
  function Stacked(layers: seq<Node>, base: Node): Node {
    if layers == [] then base else Merge(layers[|layers| - 1], Stacked(layers[..|layers| - 1], base))
  }

  /** When `cp -a upper/. lower` replaces what it meets: no directory meets a non-directory,
      and no regular file meets a symbolic link or special file, through which it would be
      written. */
  predicate Compatible(upper: Node, lower: Node) {
    && upper.Dir? == lower.Dir? && (upper.File? ==> lower.File?)
    && (upper.Dir? ==> forall k :: k in upper.entries && k in lower.entries ==>
                                     Compatible(upper.entries[k], lower.entries[k]))
  }

  lemma {:induction false} MergeAssociates(a: Node, b: Node, c: Node)
    requires Compatible(a, b)
    ensures Merge(a, Merge(b, c)) == Merge(Merge(a, b), c)
  {
    if a.Dir? && c.Dir? {
      forall k | k in a.entries && k in b.entries && k in c.entries
        ensures Merge(a.entries[k], Merge(b.entries[k], c.entries[k])) ==
                Merge(Merge(a.entries[k], b.entries[k]), c.entries[k])
      {
        MergeAssociates(a.entries[k], b.entries[k], c.entries[k]);
      }
      assert Merge(a, Merge(b, c)).entries == Merge(Merge(a, b), c).entries;
    }
  }

  /** Without compatibility the two groupings can differ: the layers that hide a
      directory behind a file lose that file when they are joined first. */
  lemma MergeNeedsCompatible()
    ensures exists a, b, c :: !Compatible(a, b) && Merge(a, Merge(b, c)) != Merge(Merge(a, b), c)
  {
    var a, b, c := Dir(map[]), File(""), Dir(map["x" := File("")]);
    assert Merge(a, Merge(b, c)).entries == map[];
    assert "x" in Merge(Merge(a, b), c).entries;
    assert !Compatible(a, b);
  }

  // ----- subtrees -----

  type Path = seq<string>

  function At(t: Node, p: Path): Option<Node> {
    if p == [] then Some(t)
    else if t.Dir? && p[0] in t.entries then At(t.entries[p[0]], p[1..])
    else None
  }

  /** t with the subtree at p, if there is one, replaced by n. */
  function Graft(t: Node, p: Path, n: Node): Node {
    if p == [] then n
    else if t.Dir? && p[0] in t.entries then Dir(t.entries[p[0] := Graft(t.entries[p[0]], p[1..], n)])
    else t
  }

  lemma {:induction false} AtGraft(t: Node, p: Path, n: Node, q: Path)
    requires At(t, p).Some?
    ensures At(Graft(t, p, n), p + q) == At(n, q)
  {
    if p == [] {
      assert p + q == q;
    } else {
      assert (p + q)[1..] == p[1..] + q;
      AtGraft(t.entries[p[0]], p[1..], n, q);
    }
  }

  lemma {:induction false} GraftSame(t: Node, p: Path, n: Node)
    requires At(t, p) == Some(n)
    ensures Graft(t, p, n) == t
  {
    if p != [] {
      GraftSame(t.entries[p[0]], p[1..], n);
    }
  }

  lemma {:induction false} GraftInside(t: Node, p: Path, x: Node, k: string, y: Node)
    requires At(t, p).Some? && x.Dir? && k in x.entries
    ensures Graft(Graft(t, p, x), p + [k], y) == Graft(t, p, Dir(x.entries[k := y]))
  {
    if p == [] {
      assert p + [k] == [k] && [k][1..] == [];
    } else {
      assert (p + [k])[1..] == p[1..] + [k];
      GraftInside(t.entries[p[0]], p[1..], x, k, y);
    }
  }

  /** On the way to p the tree has something that is not a directory. */
  ghost predicate CutOff(t: Node, p: Path) {
    exists i :: 0 <= i < |p| && At(t, p[..i]).Some? && !At(t, p[..i]).value.Dir?
  }

  lemma CutOffBelow(t: Node, p: Path)
    requires p != []
    ensures !t.Dir? ==> CutOff(t, p)
    ensures t.Dir? && p[0] in t.entries ==> (CutOff(t, p) <==> CutOff(t.entries[p[0]], p[1..]))
    ensures t.Dir? && p[0] !in t.entries ==> !CutOff(t, p)
  {
    assert p[..0] == [];
    if t.Dir? && p[0] in t.entries {
      var below := t.entries[p[0]];
      forall i | 0 < i <= |p|
        ensures At(t, p[..i]) == At(below, p[1..][..i - 1])
      {
        assert p[..i][1..] == p[1..][..i - 1];
      }
      if CutOff(below, p[1..]) {
        var i :| 0 <= i < |p[1..]| && At(below, p[1..][..i]).Some? && !At(below, p[1..][..i]).value.Dir?;
        assert At(t, p[..i + 1]) == At(below, p[1..][..i]);
      }
    }
  }

  /** What is at a path of a merged tree: a file of the upper layer as it is, a directory where
      the upper layer has one, nothing below a file of the upper layer, and what the lower
      layer has wherever the upper one has nothing. */
  lemma {:induction false} MergedAt(upper: Node, lower: Node, p: Path)
    ensures var here, seen := At(upper, p), At(Merge(upper, lower), p);
            && (here.Some? && !here.value.Dir? ==> seen == here)
            && (here.Some? && here.value.Dir? ==> seen.Some? && seen.value.Dir?)
            && (here.None? && CutOff(upper, p) ==> seen.None?)
            && (here.None? && !CutOff(upper, p) ==> seen == At(lower, p))
  {
    hide CutOff;
    if p != [] {
      CutOffBelow(upper, p);
      if upper.Dir? && lower.Dir? && p[0] in upper.entries && p[0] in lower.entries {
        MergedAt(upper.entries[p[0]], lower.entries[p[0]], p[1..]);
      }
    }
  }

  // ----- what the bind backend shows -----

  /** listDir(..., false) skips these. */
  predicate Hidden(name: string) { name != "" && name[0] == '.' }

  /** Some staged entry that listDir reports cannot be shown by a bind or by descending. */
  ghost predicate NeedsOverlay(s: Node, b: Node)
    requires s.Dir? && b.Dir?
  {
    exists k :: k in s.entries && !Hidden(k) && !Bindable(s.entries[k], b, k)
  }

  /** A staged directory over a base directory, or a staged file over a base file. */
  predicate Bindable(staged: Node, b: Node, k: string)
    requires b.Dir?
  {
    k in b.entries && ((staged.Dir? && b.entries[k].Dir?) || (staged.File? && b.entries[k].File?))
  }

  /** The tree shown for staged directory s at base directory b. */
  ghost function Shown(s: Node, b: Node): Node
    requires s.Dir? && b.Dir?
    decreases s
  {
    if NeedsOverlay(s, b) then Merge(s, b) else Descended(s, b)
  }

  /** The tree shown when no overlay is mounted at b itself. */
  ghost function Descended(s: Node, b: Node): Node
    requires s.Dir? && b.Dir?
    decreases s, 0
  {
    Dir(map k | k in b.entries :: ShownEntry(s, b, k))
  }

  ghost function ShownEntry(s: Node, b: Node, k: string): Node
    requires s.Dir? && b.Dir? && k in b.entries
    decreases s, 0, 0
  {
    if k !in s.entries || Hidden(k) then b.entries[k]
    else if s.entries[k].Dir? && b.entries[k].Dir? then Shown(s.entries[k], b.entries[k])
    else s.entries[k]
  }

  /** Everything in s is already in b. */
  ghost predicate Covered(s: Node, b: Node) {
    if s.Dir? then b.Dir? && forall k :: k in s.entries ==> k in b.entries && Covered(s.entries[k], b.entries[k])
    else s == b
  }

  lemma {:induction false} CoveredIff(s: Node, b: Node)
    ensures Merge(s, b) == b <==> Covered(s, b)
  {
    if s.Dir? && b.Dir? {
      var m := Merge(s, b).entries;
      assert Merge(s, b) == b <==> m == b.entries;
      forall k | k in s.entries && k in b.entries
        ensures m[k] == b.entries[k] <==> Covered(s.entries[k], b.entries[k])
      {
        CoveredIff(s.entries[k], b.entries[k]);
      }
      if m == b.entries {
        assert forall k :: k in s.entries ==> k in m;
      }
    }
  }

  /** Every dot-name the backend passes over is one whose content the base already has. */
  ghost predicate HiddenHarmless(s: Node, b: Node)
    requires s.Dir? && b.Dir?
    decreases s
  {
    NeedsOverlay(s, b) || HarmlessEntries(s, b)
  }

  ghost predicate HarmlessEntries(s: Node, b: Node)
    requires s.Dir? && b.Dir?
    decreases s, 0
  {
    forall k :: k in s.entries ==>
                  if k != "" && k[0] == '.' then k in b.entries && Covered(s.entries[k], b.entries[k])
                  else k in b.entries && s.entries[k].Dir? && b.entries[k].Dir? ==>
                         HiddenHarmless(s.entries[k], b.entries[k])
  }

  lemma {:induction false} ShownIsMergeIff(s: Node, b: Node)
    requires s.Dir? && b.Dir?
    ensures Shown(s, b) == Merge(s, b) <==> HiddenHarmless(s, b)
    decreases s, 1
  {
    if !NeedsOverlay(s, b) {
      DescendedIsMergeIff(s, b);
    }
  }

  lemma {:induction false} DescendedIsMergeIff(s: Node, b: Node)
    requires s.Dir? && b.Dir? && !NeedsOverlay(s, b)
    ensures Descended(s, b) == Merge(s, b) <==> HarmlessEntries(s, b)
    decreases s, 0
  {
    var m, d := Merge(s, b).entries, Descended(s, b).entries;
    forall k | k in s.entries && k in b.entries
      ensures d[k] == m[k] <==> if Hidden(k) then Covered(s.entries[k], b.entries[k])
                                else s.entries[k].Dir? && b.entries[k].Dir? ==>
                                       HiddenHarmless(s.entries[k], b.entries[k])
    {
      assert d[k] == ShownEntry(s, b, k) && m[k] == Merge(s.entries[k], b.entries[k]);
      if Hidden(k) {
        CoveredIff(s.entries[k], b.entries[k]);
      } else {
        assert Bindable(s.entries[k], b, k);
        if s.entries[k].Dir? {
          assert d[k] == Shown(s.entries[k], b.entries[k]);
          ShownIsMergeIff(s.entries[k], b.entries[k]);
        }
      }
    }
    assert forall k :: k in s.entries && k !in b.entries ==> k in m && k !in d;
    forall k | k in b.entries && k !in s.entries
      ensures d[k] == m[k]
    {
      assert d[k] == ShownEntry(s, b, k);
    }
    if HarmlessEntries(s, b) {
      assert forall k :: k in s.entries ==> k in b.entries by {
        forall k | k in s.entries
          ensures k in b.entries
        {
          assert !Hidden(k) ==> Bindable(s.entries[k], b, k);
        }
      }
      assert d == m;
    } else {
      var k :| k in s.entries &&
               !(if Hidden(k) then k in b.entries && Covered(s.entries[k], b.entries[k])
                 else k in b.entries && s.entries[k].Dir? && b.entries[k].Dir? ==>
                        HiddenHarmless(s.entries[k], b.entries[k]));
      assert k in b.entries ==> d[k] != m[k];
      assert d != m;
    }
  }

  /** A staged dot-file the base does not have is merged by an overlay, but never shown here. */
  lemma HiddenNameLost()
    ensures exists s: Node, b: Node :: s.Dir? && b.Dir? && !HiddenHarmless(s, b) && Merge(s, b) == s && Shown(s, b) == b != s
  {
    var s, b: Node := Dir(map[".profile" := File("")]), Dir(map[]);
    assert ".profile" in s.entries && Hidden(".profile") && s != b;
    assert Merge(s, b).entries == s.entries;
    assert Descended(s, b).entries == b.entries;
    assert !HarmlessEntries(s, b);
    assert !NeedsOverlay(s, b);
  }

  /** No name in the tree starts with a dot. */
  ghost predicate NoDotNames(s: Node) {
    s.Dir? ==> forall k :: k in s.entries ==> !(k != "" && k[0] == '.') && NoDotNames(s.entries[k])
  }

  lemma {:induction false} MergeHasNoDotNames(a: Node, b: Node)
    requires NoDotNames(a) && NoDotNames(b)
    ensures NoDotNames(Merge(a, b))
  {
    if a.Dir? && b.Dir? {
      forall k | k in a.entries && k in b.entries
        ensures NoDotNames(Merge(a.entries[k], b.entries[k]))
      {
        MergeHasNoDotNames(a.entries[k], b.entries[k]);
      }
    }
  }

  lemma {:induction false} NoHiddenIsHarmless(s: Node, b: Node)
    requires s.Dir? && b.Dir? && NoDotNames(s)
    ensures HiddenHarmless(s, b) && HarmlessEntries(s, b)
  {
    forall k | k in s.entries && k in b.entries && s.entries[k].Dir? && b.entries[k].Dir?
      ensures HiddenHarmless(s.entries[k], b.entries[k])
    {
      NoHiddenIsHarmless(s.entries[k], b.entries[k]);
    }
  }
}
