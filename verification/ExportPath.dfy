/** The command shim allocator: which package gets which shim name, and how the bin
    directory is brought in line with that decision. */
module ExportPath {
  import opened Sorting
  import opened Wrappers

  datatype Candidate = Candidate(packageName: string, commandName: string, binaryPath: string, termuxPackage: bool)

  datatype Mode = Canonical | Namespaced | Skipped

  datatype Decision = Decision(provider: Candidate, shimName: string, mode: Mode)

  predicate Active(d: Decision) { d.mode != Skipped }

  predicate IsLikelyCommandName(name: string) {
    && name != "" && name != "." && name != ".." && '/' !in name
    && forall c :: c in name ==> c > ' ' && c != '\U{7f}'
  }

  function MakeNamespaced(packageName: string, commandName: string): string {
    if packageName == "" || commandName == "" then "" else packageName + "-" + commandName
  }

  /** Executable names in the system search directories. */
  predicate InSystem(name: string, system: set<string>) {
    IsLikelyCommandName(name) && name in system
  }

  // ----- orders -----

  /** Providers by package, then by path. */
  predicate Before(a: Candidate, b: Candidate) {
    if a.packageName != b.packageName then Less(a.packageName, b.packageName) else Less(a.binaryPath, b.binaryPath)
  }

  predicate SameKey(a: Candidate, b: Candidate) {
    a.packageName == b.packageName && a.binaryPath == b.binaryPath
  }

  lemma BeforeIsStrictOrder(a: Candidate, b: Candidate, c: Candidate)
    ensures !Before(a, a) && !(Before(a, b) && Before(b, a)) && (SameKey(a, b) || Before(a, b) || Before(b, a))
    ensures Before(a, b) && Before(b, c) ==> Before(a, c)
  {
    LessIsStrictOrder(a.packageName, b.packageName, c.packageName);
    LessIsStrictOrder(a.binaryPath, b.binaryPath, c.binaryPath);
  }

  // ----- grouping -----

  /** std::sort then std::unique, one element at a time: a candidate whose key is already
      listed is dropped. */
  method InsertProvider(s: seq<Candidate>, c: Candidate) returns (r: seq<Candidate>)
    requires Increasing(Before, s)
    ensures Increasing(Before, r)
    ensures forall x :: x in s ==> x in r
    ensures forall x :: x in r ==> x in s || x == c
    ensures Lists(r, c)
  {
    var p := 0;
    while p < |s| && Before(s[p], c)
      invariant 0 <= p <= |s| && forall k :: 0 <= k < p ==> Before(s[k], c)
    {
      p := p + 1;
    }
    if p < |s| && SameKey(s[p], c) {
      assert s[p] in s;
      return s;
    }
    forall k | p <= k < |s|
      ensures Before(c, s[k])
    {
      BeforeIsStrictOrder(s[p], c, c);
      BeforeIsStrictOrder(c, s[p], s[k]);
    }
    r := s[..p] + [c] + s[p..];
    InsertedMembers(s, p, c);
    assert c in r && SameKey(c, c);
  }

  /** All providers of one command, best first. */
  datatype Group = Group(command: string, providers: seq<Candidate>)

  /** Some listed provider has the key of x. */
  ghost predicate Lists(ps: seq<Candidate>, x: Candidate) {
    exists y :: y in ps && SameKey(y, x)
  }

  ghost predicate IsGroup(cs: seq<Candidate>, g: Group) {
    && Increasing(Before, g.providers)
    && (forall x :: x in g.providers ==> x in cs && x.commandName == g.command)
    && (forall x :: x in cs && x.commandName == g.command ==> Lists(g.providers, x))
  }

  function Commands(gs: seq<Group>): (r: seq<string>)
    ensures |r| == |gs| && forall i :: 0 <= i < |r| ==> r[i] == gs[i].command
  {
    seq(|gs|, i requires 0 <= i < |gs| => gs[i].command)
  }

  /** The candidates as the std::map of sorted provider lists presents them. */
  ghost predicate IsGrouping(cs: seq<Candidate>, gs: seq<Group>) {
    && Increasing(Less, Commands(gs))
    && (forall i :: 0 <= i < |gs| ==> IsGroup(cs, gs[i]))
    && (forall n :: n in Commands(gs) <==> exists x :: x in cs && x.commandName == n)
  }

  /** Package, command and path determine the Termux flag. */
  ghost predicate FlagsAgree(cs: seq<Candidate>) {
    forall x, y :: x in cs && y in cs && SameKey(x, y) && x.commandName == y.commandName ==> x == y
  }

  lemma GroupUnique(cs: seq<Candidate>, cs': seq<Candidate>, g: Group, g': Group)
    requires IsGroup(cs, g) && IsGroup(cs', g') && g.command == g'.command
    requires FlagsAgree(cs) && forall x :: x in cs <==> x in cs'
    ensures g == g'
  {
    forall x
      ensures x in g.providers <==> x in g'.providers
    {
      if x in g.providers {
        assert Lists(g'.providers, x);
      }
      if x in g'.providers {
        assert Lists(g.providers, x);
      }
    }
    forall x, y | x in g.providers && y in g.providers
      ensures !(Before(x, y) && Before(y, x))
    {
      BeforeIsStrictOrder(x, y, y);
    }
    IncreasingUnique(Before, g.providers, g'.providers);
  }

  /** Grouping forgets the order in which the candidates were discovered. */
  lemma GroupingUnique(cs: seq<Candidate>, cs': seq<Candidate>, gs: seq<Group>, gs': seq<Group>)
    requires IsGrouping(cs, gs) && IsGrouping(cs', gs')
    requires FlagsAgree(cs) && forall x :: x in cs <==> x in cs'
    ensures gs == gs'
  {
    forall x, y | x in Commands(gs) && y in Commands(gs)
      ensures !(Less(x, y) && Less(y, x))
    {
      LessIsStrictOrder(x, y, y);
    }
    IncreasingUnique(Less, Commands(gs), Commands(gs'));
    forall i | 0 <= i < |gs|
      ensures gs[i] == gs'[i]
    {
      assert Commands(gs)[i] == Commands(gs')[i];
      GroupUnique(cs, cs', gs[i], gs'[i]);
    }
  }

  lemma GroupGrows(cs: seq<Candidate>, i: nat, command: string, ps: seq<Candidate>, more: seq<Candidate>)
    requires i < |cs| && IsGroup(cs[..i], Group(command, ps)) && cs[i].commandName == command
    requires Increasing(Before, more)
    requires forall x :: x in ps ==> x in more
    requires forall x :: x in more ==> x in ps || x == cs[i]
    requires Lists(more, cs[i])
    ensures IsGroup(cs[..i + 1], Group(command, more))
  {
    hide Increasing;
    assert forall x :: x in cs[..i + 1] <==> x in cs[..i] || x == cs[i];
    forall x | x in cs[..i] && x.commandName == command
      ensures Lists(more, x)
    {
      assert Lists(ps, x);
    }
  }

  lemma GroupStays(cs: seq<Candidate>, i: nat, command: string, ps: seq<Candidate>)
    requires i < |cs| && IsGroup(cs[..i], Group(command, ps)) && cs[i].commandName != command
    ensures IsGroup(cs[..i + 1], Group(command, ps))
  {
    assert forall x :: x in cs[..i + 1] <==> x in cs[..i] || x == cs[i];
  }

  lemma EmptyGroup(cs: seq<Candidate>, command: string)
    ensures IsGroup(cs[..0], Group(command, []))
  {
  }

  method Providers(cs: seq<Candidate>, command: string) returns (g: Group)
    ensures g.command == command && IsGroup(cs, g)
  {
    hide IsGroup;
    var ps: seq<Candidate> := [];
    EmptyGroup(cs, command);
    for i := 0 to |cs|
      invariant Increasing(Before, ps) && IsGroup(cs[..i], Group(command, ps))
    {
      if cs[i].commandName == command {
        var more := InsertProvider(ps, cs[i]);
        GroupGrows(cs, i, command, ps, more);
        ps := more;
      } else {
        GroupStays(cs, i, command, ps);
      }
    }
    assert cs[..|cs|] == cs;
    g := Group(command, ps);
  }

  method GroupCandidates(cs: seq<Candidate>) returns (gs: seq<Group>)
    ensures IsGrouping(cs, gs)
  {
    var names: seq<string> := [];
    for i := 0 to |cs|
      invariant Increasing(Less, names)
      invariant forall n :: n in names <==> exists x :: x in cs[..i] && x.commandName == n
    {
      assert forall x :: x in cs[..i + 1] <==> x in cs[..i] || x == cs[i];
      names := InsertName(names, cs[i].commandName);
    }
    assert cs[..|cs|] == cs;
    gs := [];
    for i := 0 to |names|
      invariant Commands(gs) == names[..i]
      invariant forall k :: 0 <= k < i ==> IsGroup(cs, gs[k])
    {
      var g := Providers(cs, names[i]);
      gs := gs + [g];
    }
    assert Commands(gs) == names;
  }

  // ----- the decision -----

  /** The decisions made so far and the shim names they use. */
  datatype Alloc = Alloc(decisions: seq<Decision>, taken: set<string>)

  function DecideOne(p: Candidate, first: bool, taken: set<string>, system: set<string>): Decision {
    if first && p.commandName !in taken then Decision(p, p.commandName, Canonical)
    else
      var name := MakeNamespaced(p.packageName, p.commandName);
      if !IsLikelyCommandName(name) || InSystem(name, system) || name in taken then Decision(p, "", Skipped)
      else Decision(p, name, Namespaced)
  }

  function Push(st: Alloc, d: Decision): Alloc {
    Alloc(st.decisions + [d], if Active(d) then st.taken + {d.shimName} else st.taken)
  }

  /** st after the first i providers of g. */
  function GroupState(st: Alloc, g: Group, i: nat, system: set<string>): Alloc
    requires i <= |g.providers|
  {
    if i == 0 then st
    else
      var before, p := GroupState(st, g, i - 1, system), g.providers[i - 1];
      Push(before, if InSystem(g.command, system) then Decision(p, "", Skipped)
                   else DecideOne(p, i == 1, before.taken, system))
  }

  function AllState(gs: seq<Group>, j: nat, system: set<string>): Alloc
    requires j <= |gs|
  {
    if j == 0 then Alloc([], {})
    else GroupState(AllState(gs, j - 1, system), gs[j - 1], |gs[j - 1].providers|, system)
  }

  /** The decisions for one command. */
  method DecideGroup(g: Group, decisions0: seq<Decision>, taken0: set<string>, system: set<string>)
    returns (decisions: seq<Decision>, taken: set<string>)
    requires forall p :: p in g.providers ==> p.commandName == g.command
    ensures Alloc(decisions, taken) == GroupState(Alloc(decisions0, taken0), g, |g.providers|, system)
  {
    hide IsLikelyCommandName, MakeNamespaced, InSystem;
    decisions, taken := decisions0, taken0;
    var systemCollision := InSystem(g.command, system);
    var canonicalConsumed := false;
    var i := 0;
    while i < |g.providers|
      invariant 0 <= i <= |g.providers|
      invariant Alloc(decisions, taken) == GroupState(Alloc(decisions0, taken0), g, i, system)
      invariant canonicalConsumed <==> i > 0 && !systemCollision
    {
      var p := g.providers[i];
      assert p in g.providers;
      var d := Decision(p, "", Skipped);
      if !systemCollision {
        if !canonicalConsumed {
          if g.command !in taken {
            d := Decision(p, g.command, Canonical);
            taken := taken + {g.command};
          }
          canonicalConsumed := true;
        }
        if d.mode == Skipped {
          var name := MakeNamespaced(p.packageName, g.command);
          if IsLikelyCommandName(name) && !InSystem(name, system) && name !in taken {
            d := Decision(p, name, Namespaced);
            taken := taken + {name};
          }
        }
      }
      decisions := decisions + [d];
      i := i + 1;
    }
  }

  /** The decision loop of rebuild_command_index_and_shims. */
  method DecideShims(cs: seq<Candidate>, system: set<string>) returns (decisions: seq<Decision>, ghost gs: seq<Group>)
    ensures IsGrouping(cs, gs) && decisions == AllState(gs, |gs|, system).decisions
  {
    hide GroupState, Increasing;
    var groups := GroupCandidates(cs);
    gs := groups;
    decisions := [];
    var taken: set<string> := {};
    for j := 0 to |groups|
      invariant Alloc(decisions, taken) == AllState(groups, j, system)
    {
      assert IsGroup(cs, groups[j]);
      decisions, taken := DecideGroup(groups[j], decisions, taken, system);
    }
  }

  /** Active names are distinct, are the taken ones, and shadow no system command. */
  ghost predicate SoundAlloc(st: Alloc, system: set<string>) {
    && (forall d :: d in st.decisions && Active(d) ==> d.shimName in st.taken && !InSystem(d.shimName, system))
    && (forall n :: n in st.taken ==> exists d :: d in st.decisions && Active(d) && d.shimName == n)
    && (forall i, j :: 0 <= i < j < |st.decisions| && Active(st.decisions[i]) && Active(st.decisions[j]) ==>
                         st.decisions[i].shimName != st.decisions[j].shimName)
    && (forall d :: d in st.decisions && d.mode == Canonical ==> d.shimName == d.provider.commandName)
    && (forall d :: d in st.decisions && d.mode == Namespaced ==>
                      IsLikelyCommandName(d.shimName) &&
                      d.shimName == MakeNamespaced(d.provider.packageName, d.provider.commandName))
  }

  lemma PushSound(st: Alloc, d: Decision, system: set<string>)
    requires SoundAlloc(st, system)
    requires Active(d) ==> d.shimName !in st.taken && !InSystem(d.shimName, system)
    requires d.mode == Canonical ==> d.shimName == d.provider.commandName
    requires d.mode == Namespaced ==>
               IsLikelyCommandName(d.shimName) &&
               d.shimName == MakeNamespaced(d.provider.packageName, d.provider.commandName)
    ensures SoundAlloc(Push(st, d), system)
  {
    hide InSystem, IsLikelyCommandName, MakeNamespaced;
    var st' := Push(st, d);
    assert forall x :: x in st'.decisions <==> x in st.decisions || x == d;
    assert forall i :: 0 <= i < |st.decisions| ==> st.decisions[i] in st.decisions;
    forall n | n in st'.taken
      ensures exists x :: x in st'.decisions && Active(x) && x.shimName == n
    {
      if n in st.taken {
        var x :| x in st.decisions && Active(x) && x.shimName == n;
        assert x in st'.decisions;
      } else {
        assert d in st'.decisions;
      }
    }
  }

  lemma {:induction false} GroupSound(cs: seq<Candidate>, st: Alloc, g: Group, i: nat, system: set<string>)
    requires IsGroup(cs, g) && i <= |g.providers| && SoundAlloc(st, system)
    ensures SoundAlloc(GroupState(st, g, i, system), system)
  {
    hide SoundAlloc, Increasing;
    if i > 0 {
      GroupSound(cs, st, g, i - 1, system);
      var before, p := GroupState(st, g, i - 1, system), g.providers[i - 1];
      assert p in g.providers;
      PushSound(before, if InSystem(g.command, system) then Decision(p, "", Skipped)
                        else DecideOne(p, i == 1, before.taken, system), system);
    }
  }

  lemma NothingAllocated(system: set<string>)
    ensures SoundAlloc(Alloc([], {}), system)
  {
  }

  /** Whatever the candidates, the allocation is sound. */
  lemma {:induction false} AllocationIsSound(cs: seq<Candidate>, gs: seq<Group>, j: nat, system: set<string>)
    requires IsGrouping(cs, gs) && j <= |gs|
    ensures SoundAlloc(AllState(gs, j, system), system)
  {
    hide SoundAlloc, Increasing, IsGroup;
    if j == 0 {
      NothingAllocated(system);
    } else {
      AllocationIsSound(cs, gs, j - 1, system);
      GroupSound(cs, AllState(gs, j - 1, system), gs[j - 1], |gs[j - 1].providers|, system);
    }
  }

  // ----- the order of discovery -----

  /** A candidate without its Termux flag, and the same for whatever holds candidates. */
  function Bare(c: Candidate): Candidate { c.(termuxPackage := false) }

  function BareAll(cs: seq<Candidate>): (r: seq<Candidate>)
    ensures |r| == |cs| && forall i :: 0 <= i < |r| ==> r[i] == Bare(cs[i])
  {
    seq(|cs|, i requires 0 <= i < |cs| => Bare(cs[i]))
  }

  function BareGroups(gs: seq<Group>): (r: seq<Group>)
    ensures |r| == |gs| && forall i :: 0 <= i < |r| ==> r[i] == Group(gs[i].command, BareAll(gs[i].providers))
  {
    seq(|gs|, i requires 0 <= i < |gs| => Group(gs[i].command, BareAll(gs[i].providers)))
  }

  function BareDecisions(ds: seq<Decision>): (r: seq<Decision>)
    ensures |r| == |ds| && forall i :: 0 <= i < |r| ==> r[i] == ds[i].(provider := Bare(ds[i].provider))
  {
    seq(|ds|, i requires 0 <= i < |ds| => ds[i].(provider := Bare(ds[i].provider)))
  }

  function BareAlloc(st: Alloc): Alloc { Alloc(BareDecisions(st.decisions), st.taken) }

  lemma BareMembers(cs: seq<Candidate>)
    ensures forall x :: x in cs ==> Bare(x) in BareAll(cs)
    ensures forall b :: b in BareAll(cs) ==> exists x :: x in cs && Bare(x) == b
  {
    forall x | x in cs
      ensures Bare(x) in BareAll(cs)
    {
      var i :| 0 <= i < |cs| && cs[i] == x;
      assert BareAll(cs)[i] == Bare(x);
    }
    forall b | b in BareAll(cs)
      ensures exists x :: x in cs && Bare(x) == b
    {
      var i :| 0 <= i < |cs| && BareAll(cs)[i] == b;
      assert cs[i] in cs;
    }
  }

  /** Only the keys matter for the order. */
  lemma SameKeysIncrease(ps: seq<Candidate>, qs: seq<Candidate>)
    requires Increasing(Before, ps) && |qs| == |ps| && forall i :: 0 <= i < |ps| ==> SameKey(ps[i], qs[i])
    ensures Increasing(Before, qs)
  {
    forall i, j | 0 <= i < j < |qs|
      ensures Before(qs[i], qs[j])
    {
      assert Before(ps[i], ps[j]);
    }
  }

  lemma BareIsGroup(cs: seq<Candidate>, g: Group)
    requires IsGroup(cs, g)
    ensures IsGroup(BareAll(cs), Group(g.command, BareAll(g.providers)))
  {
    hide Before, Lists;
    SameKeysIncrease(g.providers, BareAll(g.providers));
    BareMembers(cs);
    BareMembers(g.providers);
    forall b | b in BareAll(cs) && b.commandName == g.command
      ensures Lists(BareAll(g.providers), b)
    {
      var x :| x in cs && Bare(x) == b;
      BareLists(g.providers, x);
    }
  }

  lemma BareLists(ps: seq<Candidate>, x: Candidate)
    requires Lists(ps, x)
    ensures Lists(BareAll(ps), Bare(x))
  {
    BareMembers(ps);
    var y :| y in ps && SameKey(y, x);
    assert Bare(y) in BareAll(ps) && SameKey(Bare(y), Bare(x));
  }

  lemma BareIsGrouping(cs: seq<Candidate>, gs: seq<Group>)
    requires IsGrouping(cs, gs)
    ensures IsGrouping(BareAll(cs), BareGroups(gs)) && FlagsAgree(BareAll(cs))
  {
    BareMembers(cs);
    assert Commands(BareGroups(gs)) == Commands(gs);
    forall i | 0 <= i < |gs|
      ensures IsGroup(BareAll(cs), BareGroups(gs)[i])
    {
      BareIsGroup(cs, gs[i]);
    }
    forall n
      ensures n in Commands(gs) <==> exists b :: b in BareAll(cs) && b.commandName == n
    {
      if x :| x in cs && x.commandName == n {
        assert Bare(x) in BareAll(cs);
      }
    }
  }

  lemma BarePush(st: Alloc, d: Decision)
    ensures BareAlloc(Push(st, d)) == Push(BareAlloc(st), d.(provider := Bare(d.provider)))
  {
    assert BareDecisions(st.decisions + [d]) == BareDecisions(st.decisions) + [d.(provider := Bare(d.provider))];
  }

  lemma {:induction false} BareGroupState(st: Alloc, g: Group, i: nat, system: set<string>)
    requires i <= |g.providers|
    ensures BareAlloc(GroupState(st, g, i, system)) ==
            GroupState(BareAlloc(st), Group(g.command, BareAll(g.providers)), i, system)
  {
    hide InSystem, IsLikelyCommandName, MakeNamespaced;
    if i > 0 {
      BareGroupState(st, g, i - 1, system);
      var before, p := GroupState(st, g, i - 1, system), g.providers[i - 1];
      BarePush(before, if InSystem(g.command, system) then Decision(p, "", Skipped)
                       else DecideOne(p, i == 1, before.taken, system));
    }
  }

  lemma {:induction false} BareAllState(gs: seq<Group>, j: nat, system: set<string>)
    requires j <= |gs|
    ensures BareAlloc(AllState(gs, j, system)) == AllState(BareGroups(gs), j, system)
  {
    hide GroupState;
    if j > 0 {
      BareAllState(gs, j - 1, system);
      BareGroupState(AllState(gs, j - 1, system), gs[j - 1], |gs[j - 1].providers|, system);
    }
  }

  /** The order in which candidates are discovered influences no name, mode, package, command
      or path; nor the Termux flag, where these determine it. */
  lemma AllocationIgnoresOrder(cs: seq<Candidate>, cs': seq<Candidate>, gs: seq<Group>, gs': seq<Group>, system: set<string>)
    requires IsGrouping(cs, gs) && IsGrouping(cs', gs') && multiset(cs) == multiset(cs')
    ensures BareAlloc(AllState(gs, |gs|, system)) == BareAlloc(AllState(gs', |gs'|, system))
    ensures FlagsAgree(cs) ==> AllState(gs, |gs|, system) == AllState(gs', |gs'|, system)
  {
    forall x
      ensures x in cs <==> x in cs'
    {
      assert x in multiset(cs) <==> x in multiset(cs');
    }
    hide AllState, IsGroup, Increasing, BareAlloc;
    if FlagsAgree(cs) {
      GroupingUnique(cs, cs', gs, gs');
    }
    BareMembers(cs);
    BareMembers(cs');
    BareIsGrouping(cs, gs);
    BareIsGrouping(cs', gs');
    GroupingUnique(BareAll(cs), BareAll(cs'), BareGroups(gs), BareGroups(gs'));
    BareAllState(gs, |gs|, system);
    BareAllState(gs', |gs'|, system);
  }

  lemma {:induction false} GroupProvided(st: Alloc, g: Group, i: nat, system: set<string>)
    requires i <= |g.providers|
    ensures |GroupState(st, g, i, system).decisions| == |st.decisions| + i
    ensures forall k :: 0 <= k < |st.decisions| ==> GroupState(st, g, i, system).decisions[k] == st.decisions[k]
    ensures forall k :: 0 <= k < i ==> GroupState(st, g, i, system).decisions[|st.decisions| + k].provider == g.providers[k]
  {
    hide InSystem, IsLikelyCommandName, MakeNamespaced;
    if i > 0 {
      GroupProvided(st, g, i - 1, system);
    }
  }

  /** Where the groups first differ, so do the decisions. */
  lemma {:induction false} AllProvided(gs: seq<Group>, j: nat, m: nat, system: set<string>)
    requires j < m <= |gs|
    ensures var before, after := AllState(gs, j, system).decisions, AllState(gs, m, system).decisions;
            && |before| + |gs[j].providers| <= |after|
            && forall k :: 0 <= k < |gs[j].providers| ==> after[|before| + k].provider == gs[j].providers[k]
  {
    hide GroupState;
    GroupProvided(AllState(gs, m - 1, system), gs[m - 1], |gs[m - 1].providers|, system);
    if j < m - 1 {
      AllProvided(gs, j, m - 1, system);
    }
  }

  lemma {:induction false} SamePrefix(gs: seq<Group>, gs': seq<Group>, j: nat, system: set<string>)
    requires j <= |gs| && j <= |gs'| && gs[..j] == gs'[..j]
    ensures AllState(gs, j, system) == AllState(gs', j, system)
  {
    if j > 0 {
      assert gs[..j][..j - 1] == gs[..j - 1] && gs'[..j][..j - 1] == gs'[..j - 1];
      assert gs[..j][j - 1] == gs[j - 1] && gs'[..j][j - 1] == gs'[j - 1];
      SamePrefix(gs, gs', j - 1, system);
    }
  }

  lemma SwapMembers(ps: seq<Candidate>, i: nat, c: Candidate)
    requires i < |ps|
    ensures forall x :: x in ps[i := c] ==> x in ps || x == c
  {
    forall x | x in ps[i := c] && x != c
      ensures x in ps
    {
      var k :| 0 <= k < |ps| && ps[i := c][k] == x;
      assert ps[k] == x;
    }
  }

  lemma SwapProvider(cs: seq<Candidate>, g: Group, i: nat, c: Candidate)
    requires IsGroup(cs, g) && i < |g.providers| && SameKey(g.providers[i], c) && c in cs && c.commandName == g.command
    ensures IsGroup(cs, Group(g.command, g.providers[i := c]))
  {
    var ps := g.providers[i := c];
    hide Before, Lists, Increasing;
    SameKeysIncrease(g.providers, ps);
    SwapMembers(g.providers, i, c);
    forall x | x in cs && x.commandName == g.command
      ensures Lists(ps, x)
    {
      SwapLists(g.providers, i, c, x);
    }
  }

  lemma SwapLists(ps: seq<Candidate>, i: nat, c: Candidate, x: Candidate)
    requires i < |ps| && SameKey(ps[i], c) && Lists(ps, x)
    ensures Lists(ps[i := c], x)
  {
    var y :| y in ps && SameKey(y, x);
    var k :| 0 <= k < |ps| && ps[k] == y;
    assert ps[i := c][k] in ps[i := c] && SameKey(ps[i := c][k], x);
  }

  lemma SwapGroup(cs: seq<Candidate>, gs: seq<Group>, j: nat, g: Group)
    requires IsGrouping(cs, gs) && j < |gs| && IsGroup(cs, g) && g.command == gs[j].command
    ensures IsGrouping(cs, gs[j := g])
  {
    hide IsGroup;
    assert Commands(gs[j := g]) == Commands(gs);
  }

  lemma SwapChanges(gs: seq<Group>, j: nat, i: nat, c: Candidate, system: set<string>)
    requires j < |gs| && i < |gs[j].providers| && gs[j].providers[i] != c
    ensures var gs' := gs[j := Group(gs[j].command, gs[j].providers[i := c])];
            AllState(gs', |gs'|, system) != AllState(gs, |gs|, system)
  {
    hide AllState;
    var gs' := gs[j := Group(gs[j].command, gs[j].providers[i := c])];
    assert gs[..j] == gs'[..j];
    SamePrefix(gs, gs', j, system);
    AllProvided(gs, j, |gs|, system);
    AllProvided(gs', j, |gs'|, system);
    assert gs[j].providers[i] != gs'[j].providers[i];
  }

  /** Two candidates that differ only in the flag: either may be the one that is kept. */
  lemma FlagIsOpen(cs: seq<Candidate>, gs: seq<Group>, x: Candidate, y: Candidate, system: set<string>)
    requires IsGrouping(cs, gs) && x in cs && y in cs && SameKey(x, y) && x.commandName == y.commandName && x != y
    ensures exists gs' :: IsGrouping(cs, gs') && AllState(gs', |gs'|, system) != AllState(gs, |gs|, system)
  {
    hide AllState;
    assert x.commandName in Commands(gs);
    hide Increasing;
    var j :| 0 <= j < |gs| && gs[j].command == x.commandName;
    assert IsGroup(cs, gs[j]) && Lists(gs[j].providers, x);
    var z :| z in gs[j].providers && SameKey(z, x);
    var i :| 0 <= i < |gs[j].providers| && gs[j].providers[i] == z;
    var c := if z == x then y else x;
    SwapProvider(cs, gs[j], i, c);
    SwapGroup(cs, gs, j, Group(gs[j].command, gs[j].providers[i := c]));
    SwapChanges(gs, j, i, c, system);
  }

  /** The candidates fix the whole outcome, flag included, exactly if package, command and
      path determine the flag: sorting does not say which of two such candidates is kept. */
  lemma OutcomeFixedIff(cs: seq<Candidate>, gs: seq<Group>, system: set<string>)
    requires IsGrouping(cs, gs)
    ensures FlagsAgree(cs) <==> forall gs' :: IsGrouping(cs, gs') ==> AllState(gs', |gs'|, system) == AllState(gs, |gs|, system)
  {
    hide AllState, IsGrouping;
    if FlagsAgree(cs) {
      forall gs' | IsGrouping(cs, gs')
        ensures AllState(gs', |gs'|, system) == AllState(gs, |gs|, system)
      {
        AllocationIgnoresOrder(cs, cs, gs, gs', system);
      }
    } else {
      var x, y :| x in cs && y in cs && SameKey(x, y) && x.commandName == y.commandName && x != y;
      FlagIsOpen(cs, gs, x, y, system);
    }
  }

  /** A Termux package, and a manual package of that name installed under the Termux prefix. */
  lemma FlagExample()
    ensures exists cs :: |cs| == 2 && !FlagsAgree(cs) && BareAll(cs)[0] == BareAll(cs)[1]
  {
    var c := Candidate("vim", "vim", "/data/apm/termux/usr/bin/vim", true);
    var cs := [c, Bare(c)];
    assert cs[0] in cs && cs[1] in cs;
  }

  // ----- canonical ownership -----

  ghost predicate CanonicalFor(d: Decision, c: string) {
    d.mode == Canonical && d.provider.commandName == c
  }

  /** From st to st', no canonical decision for c was added or lost. */
  ghost predicate NoneAdded(st: Alloc, st': Alloc, c: string) {
    && st.taken <= st'.taken
    && forall d :: CanonicalFor(d, c) ==> (d in st'.decisions <==> d in st.decisions)
  }

  lemma NoneAddedPush(st: Alloc, st': Alloc, d: Decision, c: string)
    requires NoneAdded(st, st', c) && !CanonicalFor(d, c)
    ensures NoneAdded(st, Push(st', d), c)
  {
    assert forall x :: x in Push(st', d).decisions <==> x in st'.decisions || x == d;
  }

  lemma NoneAddedTransitive(st: Alloc, st': Alloc, st'': Alloc, c: string)
    ensures NoneAdded(st, st, c)
    ensures NoneAdded(st, st', c) && NoneAdded(st', st'', c) ==> NoneAdded(st, st'', c)
  {
  }

  /** Decisions about other commands, or about a command that is taken, are not canonical for c. */
  lemma {:induction false} GroupAddsNone(cs: seq<Candidate>, st: Alloc, g: Group, i: nat, system: set<string>, c: string)
    requires IsGroup(cs, g) && i <= |g.providers|
    requires g.command != c || InSystem(c, system) || c in st.taken
    ensures NoneAdded(st, GroupState(st, g, i, system), c)
  {
    hide InSystem, IsLikelyCommandName, MakeNamespaced, Increasing;
    if i == 0 {
      NoneAddedTransitive(st, st, st, c);
    } else {
      GroupAddsNone(cs, st, g, i - 1, system, c);
      var before, p := GroupState(st, g, i - 1, system), g.providers[i - 1];
      assert p in g.providers;
      NoneAddedPush(st, before, if InSystem(g.command, system) then Decision(p, "", Skipped)
                                else DecideOne(p, i == 1, before.taken, system), c);
    }
  }

  /** The group of c itself: its first provider, and no other, becomes canonical. */
  lemma {:induction false} GroupAddsFirst(cs: seq<Candidate>, st: Alloc, g: Group, i: nat, system: set<string>)
    requires IsGroup(cs, g) && 0 < i <= |g.providers|
    requires !InSystem(g.command, system) && g.command !in st.taken
    requires forall d :: d in st.decisions ==> !CanonicalFor(d, g.command)
    ensures forall d :: CanonicalFor(d, g.command) ==>
                          (d in GroupState(st, g, i, system).decisions <==>
                           d == Decision(g.providers[0], g.command, Canonical))
  {
    assert g.providers[i - 1] in g.providers;
    if i > 1 {
      GroupAddsFirst(cs, st, g, i - 1, system);
    } else {
      assert GroupState(st, g, 0, system) == st;
    }
  }

  lemma {:induction false} OthersAddNone(cs: seq<Candidate>, gs: seq<Group>, from: nat, to: nat, system: set<string>, c: string)
    requires IsGrouping(cs, gs) && from <= to <= |gs|
    requires forall k :: from <= k < to ==> gs[k].command != c
    ensures NoneAdded(AllState(gs, from, system), AllState(gs, to, system), c)
  {
    hide IsGroup, Increasing, NoneAdded, GroupState;
    var st := AllState(gs, from, system);
    if from == to {
      NoneAddedTransitive(st, st, st, c);
    } else {
      OthersAddNone(cs, gs, from, to - 1, system, c);
      var before := AllState(gs, to - 1, system);
      GroupAddsNone(cs, before, gs[to - 1], |gs[to - 1].providers|, system, c);
      NoneAddedTransitive(st, before, AllState(gs, to, system), c);
    }
  }

  /** A command that is neither a system command nor taken by an earlier namespaced shim has
      exactly one canonical owner, its least provider by package and then path; any other
      command has none. */
  lemma CanonicalOwner(cs: seq<Candidate>, gs: seq<Group>, j: nat, system: set<string>)
    requires IsGrouping(cs, gs) && j < |gs|
    ensures gs[j].providers != []
    ensures var c, st, final := gs[j].command, AllState(gs, j, system), AllState(gs, |gs|, system);
            forall d :: CanonicalFor(d, c) ==>
                          (d in final.decisions <==>
                           !InSystem(c, system) && c !in st.taken && d == Decision(gs[j].providers[0], c, Canonical))
  {
    var g, c := gs[j], gs[j].command;
    ProvidersExist(cs, gs, j);
    forall k | 0 <= k < |gs| && k != j
      ensures gs[k].command != c
    {
      LessIsStrictOrder(Commands(gs)[k], Commands(gs)[j], c);
    }
    hide IsGroup, Increasing;
    OthersAddNone(cs, gs, 0, j, system, c);
    OthersAddNone(cs, gs, j + 1, |gs|, system, c);
    var st := AllState(gs, j, system);
    assert forall d :: d in st.decisions ==> !CanonicalFor(d, c);
    if InSystem(c, system) || c in st.taken {
      GroupAddsNone(cs, st, g, |g.providers|, system, c);
    } else {
      GroupAddsFirst(cs, st, g, |g.providers|, system);
    }
  }

  lemma ProvidersExist(cs: seq<Candidate>, gs: seq<Group>, j: nat)
    requires IsGrouping(cs, gs) && j < |gs|
    ensures gs[j].providers != []
  {
    assert Commands(gs)[j] in Commands(gs);
    var x :| x in cs && x.commandName == gs[j].command;
    assert IsGroup(cs, gs[j]) && Lists(gs[j].providers, x);
  }

  // ----- the allocation in terms of names -----

  /** Non-empty, not a dot directory, and free of slashes, spaces and control characters. */
  ghost predicate Plain(n: string) {
    && n != "" && n != "." && n != ".."
    && forall i :: 0 <= i < |n| ==> n[i] != '/' && n[i] > ' ' && n[i] != '\U{7f}'
  }

  lemma LikelyIsPlain(n: string)
    ensures IsLikelyCommandName(n) <==> Plain(n)
  {
    assert forall i :: 0 <= i < |n| ==> n[i] in n;
  }

  /** What a provider has to get when the names `used` are gone: nothing for a system command;
      the command itself if the provider is the best one and the command is not used; else
      package-command, if that is a plain name, not used and no system command. */
  ghost predicate Fits(d: Decision, best: bool, used: set<string>, system: set<string>) {
    var c, n := d.provider.commandName, d.provider.packageName + "-" + d.provider.commandName;
    var canonical := !(Plain(c) && c in system) && best && c !in used;
    var namespaced := && !(Plain(c) && c in system) && !canonical
                      && d.provider.packageName != "" && c != "" && Plain(n) && n !in system && n !in used;
    && (d.mode.Canonical? <==> canonical)
    && (d.mode.Namespaced? <==> namespaced)
    && d.shimName == (if canonical then c else if namespaced then n else "")
  }

  lemma DecisionFits(p: Candidate, best: bool, used: set<string>, system: set<string>)
    ensures Fits(if InSystem(p.commandName, system) then Decision(p, "", Skipped)
                 else DecideOne(p, best, used, system), best, used, system)
  {
    hide IsLikelyCommandName;
    LikelyIsPlain(p.commandName);
    LikelyIsPlain("");
    LikelyIsPlain(p.packageName + "-" + p.commandName);
  }

  ghost predicate FitsAt(ds: seq<Decision>, k: nat, p: Candidate, best: bool, system: set<string>) {
    k < |ds| && ds[k].provider == p && Fits(ds[k], best, ActiveNames(ds[..k]), system)
  }

  ghost predicate GroupFits(ds: seq<Decision>, at: nat, g: Group, n: nat, system: set<string>)
    requires n <= |g.providers|
  {
    forall i :: 0 <= i < n ==> FitsAt(ds, at + i, g.providers[i], i == 0, system)
  }

  /** How many providers the first j groups have. */
  ghost function Count(gs: seq<Group>, j: nat): nat
    requires j <= |gs|
  {
    if j == 0 then 0 else Count(gs, j - 1) + |gs[j - 1].providers|
  }

  /** There is one decision for each provider, in the order of the groups, and each fits what
      was decided before it. */
  ghost predicate Allocated(gs: seq<Group>, j: nat, ds: seq<Decision>, system: set<string>)
    requires j <= |gs|
  {
    && |ds| == Count(gs, j)
    && forall k :: 0 <= k < j ==> GroupFits(ds, Count(gs, k), gs[k], |gs[k].providers|, system)
  }

  lemma FitsOnward(ds: seq<Decision>, d: Decision, k: nat, p: Candidate, best: bool, system: set<string>)
    ensures FitsAt(ds, k, p, best, system) ==> FitsAt(ds + [d], k, p, best, system)
  {
    hide Fits, ActiveNames;
    if k < |ds| {
      assert (ds + [d])[..k] == ds[..k];
    }
  }

  lemma FitsLast(ds: seq<Decision>, d: Decision, best: bool, system: set<string>)
    requires Fits(d, best, ActiveNames(ds), system)
    ensures FitsAt(ds + [d], |ds|, d.provider, best, system)
  {
    hide Fits, ActiveNames;
    assert (ds + [d])[..|ds|] == ds;
  }

  /** What fits in ds fits in more. */
  ghost predicate Continues(ds: seq<Decision>, more: seq<Decision>, system: set<string>) {
    forall k, p, best :: FitsAt(ds, k, p, best, system) ==> FitsAt(more, k, p, best, system)
  }

  lemma GroupContinues(ds: seq<Decision>, more: seq<Decision>, at: nat, g: Group, system: set<string>)
    requires Continues(ds, more, system) && GroupFits(ds, at, g, |g.providers|, system)
    ensures GroupFits(more, at, g, |g.providers|, system)
  {
    hide FitsAt;
  }

  /** The part of the decisions that belongs to a group. */
  lemma {:induction false} GroupStateFits(cs: seq<Candidate>, st: Alloc, g: Group, i: nat, system: set<string>)
    requires IsGroup(cs, g) && i <= |g.providers| && st.taken == ActiveNames(st.decisions)
    ensures var now := GroupState(st, g, i, system);
            && now.taken == ActiveNames(now.decisions) && |now.decisions| == |st.decisions| + i
            && GroupFits(now.decisions, |st.decisions|, g, i, system)
            && Continues(st.decisions, now.decisions, system)
  {
    hide FitsAt, Increasing, ActiveNames, InSystem, DecideOne, Fits;
    if i > 0 {
      GroupStateFits(cs, st, g, i - 1, system);
      var before, p := GroupState(st, g, i - 1, system), g.providers[i - 1];
      assert p in g.providers;
      var d := if InSystem(g.command, system) then Decision(p, "", Skipped) else DecideOne(p, i == 1, before.taken, system);
      DecisionFits(p, i == 1, before.taken, system);
      ActiveNamesPush(before.decisions, d);
      FitsLast(before.decisions, d, i == 1, system);
      ItsProvider(p, i == 1, before.taken, system);
      forall k, q, best | FitsAt(before.decisions, k, q, best, system)
        ensures FitsAt(before.decisions + [d], k, q, best, system)
      {
        FitsOnward(before.decisions, d, k, q, best, system);
      }
    }
  }

  lemma ItsProvider(p: Candidate, best: bool, taken: set<string>, system: set<string>)
    ensures DecideOne(p, best, taken, system).provider == p
  {
  }

  /** Every decision fits those before it. */
  lemma {:induction false} AllStateFits(cs: seq<Candidate>, gs: seq<Group>, j: nat, system: set<string>)
    requires IsGrouping(cs, gs) && j <= |gs|
    ensures var st := AllState(gs, j, system);
            st.taken == ActiveNames(st.decisions) && Allocated(gs, j, st.decisions, system)
  {
    hide GroupState, GroupFits, IsGrouping, IsGroup, ActiveNames, Continues, Allocated;
    if j == 0 {
      NothingWritten("");
      NoneAllocated(gs, system);
    } else {
      AllStateFits(cs, gs, j - 1, system);
      GroupOf(cs, gs, j - 1);
      var st, now := AllState(gs, j - 1, system), AllState(gs, j, system);
      GroupStateFits(cs, st, gs[j - 1], |gs[j - 1].providers|, system);
      AllocatedNext(gs, j - 1, st.decisions, now.decisions, system);
    }
  }

  lemma GroupOf(cs: seq<Candidate>, gs: seq<Group>, j: nat)
    requires IsGrouping(cs, gs) && j < |gs|
    ensures IsGroup(cs, gs[j])
  {
  }

  lemma NoneAllocated(gs: seq<Group>, system: set<string>)
    ensures Allocated(gs, 0, [], system)
  {
  }

  lemma AllocatedNext(gs: seq<Group>, j: nat, ds: seq<Decision>, more: seq<Decision>, system: set<string>)
    requires j < |gs| && Allocated(gs, j, ds, system) && Continues(ds, more, system)
    requires |more| == |ds| + |gs[j].providers| && GroupFits(more, |ds|, gs[j], |gs[j].providers|, system)
    ensures Allocated(gs, j + 1, more, system)
  {
    hide GroupFits, Continues;
    forall k | 0 <= k < j
      ensures GroupFits(more, Count(gs, k), gs[k], |gs[k].providers|, system)
    {
      GroupContinues(ds, more, Count(gs, k), gs[k], system);
    }
  }

  /** The group that position k belongs to. */
  lemma {:induction false} Slot(gs: seq<Group>, m: nat, k: nat) returns (j: nat, i: nat)
    requires m <= |gs| && k < Count(gs, m)
    ensures j < m && i < |gs[j].providers| && k == Count(gs, j) + i
  {
    if k < Count(gs, m - 1) {
      j, i := Slot(gs, m - 1, k);
    } else {
      j, i := m - 1, k - Count(gs, m - 1);
    }
  }

  /** The command of a decision is that of its group. */
  lemma FittingProvider(cs: seq<Candidate>, gs: seq<Group>, ds: seq<Decision>, system: set<string>, k: nat)
    returns (j: nat, i: nat)
    requires IsGrouping(cs, gs) && Allocated(gs, |gs|, ds, system) && k < |ds|
    ensures j < |gs| && i < |gs[j].providers| && k == Count(gs, j) + i
    ensures FitsAt(ds, k, gs[j].providers[i], i == 0, system)
    ensures ds[k].provider in cs && ds[k].provider.commandName == gs[j].command
  {
    hide Fits, FitsAt, Increasing, Count;
    j, i := Slot(gs, |gs|, k);
    assert GroupFits(ds, Count(gs, j), gs[j], |gs[j].providers|, system);
    assert gs[j].providers[i] in gs[j].providers && IsGroup(cs, gs[j]);
    ProviderAt(ds, k, gs[j].providers[i], i == 0, system);
  }

  lemma ProviderAt(ds: seq<Decision>, k: nat, p: Candidate, best: bool, system: set<string>)
    requires FitsAt(ds, k, p, best, system)
    ensures k < |ds| && ds[k].provider == p
  {
  }

  /** Where all commands have plain names, no shim has the name of a system command. */
  lemma ShimsAvoidSystem(cs: seq<Candidate>, gs: seq<Group>, ds: seq<Decision>, system: set<string>)
    requires IsGrouping(cs, gs) && Allocated(gs, |gs|, ds, system)
    requires forall c :: c in cs ==> Plain(c.commandName)
    ensures forall d :: d in ds && Active(d) ==> d.shimName !in system
  {
    hide IsGrouping, Plain, Allocated;
    forall d | d in ds && Active(d)
      ensures d.shimName !in system
    {
      var k :| 0 <= k < |ds| && ds[k] == d;
      var j, i := FittingProvider(cs, gs, ds, system, k);
    }
  }

  /** Nor is a shim given out twice. */
  lemma ShimsAreDistinct(cs: seq<Candidate>, gs: seq<Group>, ds: seq<Decision>, system: set<string>)
    requires IsGrouping(cs, gs) && Allocated(gs, |gs|, ds, system)
    ensures forall k, m :: 0 <= k < m < |ds| && Active(ds[k]) && Active(ds[m]) ==> ds[k].shimName != ds[m].shimName
  {
    hide IsGrouping, Plain, Allocated;
    forall k, m | 0 <= k < m < |ds| && Active(ds[k]) && Active(ds[m])
      ensures ds[k].shimName != ds[m].shimName
    {
      var j, i := FittingProvider(cs, gs, ds, system, m);
      assert ds[k] in ds[..m];
    }
  }

  /** A provider gets the plain command exactly if it is the least of its command, by package
      and then path, the command is no system command, and no earlier shim took the name. */
  lemma CanonicalIff(cs: seq<Candidate>, gs: seq<Group>, ds: seq<Decision>, system: set<string>, k: nat)
    requires IsGrouping(cs, gs) && Allocated(gs, |gs|, ds, system) && k < |ds| && Plain(ds[k].provider.commandName)
    ensures var p := ds[k].provider;
            ds[k] == Decision(p, p.commandName, Canonical) <==>
              && p.commandName !in system
              && (forall m :: 0 <= m < k && Active(ds[m]) ==> ds[m].shimName != p.commandName)
              && Least(cs, p)
  {
    hide Plain, Allocated, Least;
    var j, i := FittingProvider(cs, gs, ds, system, k);
    LeastIsFirst(cs, gs[j], i);
    var p := ds[k].provider;
    UsedIff(ds, k, p.commandName);
    assert IsGroup(cs, gs[j]);
  }

  lemma UsedIff(ds: seq<Decision>, k: nat, n: string)
    requires k <= |ds|
    ensures n in ActiveNames(ds[..k]) <==> exists m :: 0 <= m < k && Active(ds[m]) && ds[m].shimName == n
  {
    forall m | 0 <= m < k && Active(ds[m]) && ds[m].shimName == n
      ensures n in ActiveNames(ds[..k])
    {
      assert ds[m] in ds[..k];
    }
  }

  ghost predicate Least(cs: seq<Candidate>, p: Candidate) {
    forall x :: x in cs && x.commandName == p.commandName ==>
                  Less(p.packageName, x.packageName) || (p.packageName == x.packageName && !Less(x.binaryPath, p.binaryPath))
  }

  lemma LeastIsFirst(cs: seq<Candidate>, g: Group, i: nat)
    requires IsGroup(cs, g) && i < |g.providers|
    ensures Least(cs, g.providers[i]) <==> i == 0
  {
    var p, first := g.providers[i], g.providers[0];
    assert p in g.providers && first in g.providers;
    if i > 0 {
      assert Before(first, p);
      BeforeIsStrictOrder(first, p, p);
      LessIsStrictOrder(first.packageName, p.packageName, p.packageName);
    } else {
      forall x | x in cs && x.commandName == p.commandName
        ensures Less(p.packageName, x.packageName) || (p.packageName == x.packageName && !Less(x.binaryPath, p.binaryPath))
      {
        assert Lists(g.providers, x);
        var y :| y in g.providers && SameKey(y, x);
        var m :| 0 <= m < |g.providers| && g.providers[m] == y;
        LessIsStrictOrder(p.packageName, x.packageName, x.packageName);
        LessIsStrictOrder(x.binaryPath, p.binaryPath, p.binaryPath);
        LessIsStrictOrder(p.binaryPath, p.binaryPath, p.binaryPath);
        if m > 0 {
          assert Before(p, y);
        }
      }
    }
  }

  // ----- the bin directory -----

  predicate Scanned(name: string) { name != "" && name[0] != '.' && IsLikelyCommandName(name) }

  /** A plain name that does not start with a dot. */
  ghost predicate Visible(name: string) { Plain(name) && name[0] != '.' }

  ghost predicate Named(ds: seq<Decision>) {
    forall d :: d in ds ==> (Active(d) <==> d.shimName != "")
  }

  lemma NoneNamed()
    ensures Named([])
  {
  }

  function ActiveNames(ds: seq<Decision>): set<string> {
    set d | d in ds && Active(d) :: d.shimName
  }

  lemma ActiveNamesPush(ds: seq<Decision>, d: Decision)
    ensures ActiveNames(ds + [d]) == ActiveNames(ds) + (if Active(d) then {d.shimName} else {})
  {
    assert forall x :: x in ds + [d] <==> x in ds || x == d;
  }

  ghost predicate DistinctNames(ds: seq<Decision>) {
    forall i, j :: 0 <= i < j < |ds| && Active(ds[i]) && Active(ds[j]) ==> ds[i].shimName != ds[j].shimName
  }

  /** The file a shim is written to before it is renamed. */
  function Temporary(name: string): string { name + ".tmp" }

  /** n is the temporary file of one of the active names. */
  ghost predicate IsTemporary(ds: seq<Decision>, n: string) {
    exists d :: d in ds && Active(d) && Temporary(d.shimName) == n
  }

  /** n is the temporary file of a shim that is written after the shim n. */
  ghost predicate Clobbered(ds: seq<Decision>, n: string) {
    exists i, j :: 0 <= i < j < |ds| && Active(ds[i]) && Active(ds[j]) && ds[i].shimName == n && Temporary(ds[j].shimName) == n
  }

  /** The decisions, some of them turned into skipped ones. */
  ghost predicate DroppedFrom(decided: seq<Decision>, ds: seq<Decision>) {
    && |ds| == |decided|
    && forall i :: 0 <= i < |ds| ==> ds[i] == decided[i] || ds[i] == Decision(decided[i].provider, "", Skipped)
  }

  /** The directory after every active shim was written in turn. */
  function Written(files: map<string, bool>, ds: seq<Decision>): map<string, bool> {
    if ds == [] then files
    else
      var before, last := Written(files, ds[..|ds| - 1]), ds[|ds| - 1];
      if Active(last) then (before - {Temporary(last.shimName)})[last.shimName := true] else before
  }

  /** n is on disk, as a managed shim or not, after the shims were written. */
  ghost predicate WrittenAs(files: map<string, bool>, ds: seq<Decision>, n: string, managed: bool) {
    if n in ActiveNames(ds) then managed && !Clobbered(ds, n)
    else n in files && files[n] == managed && !IsTemporary(ds, n)
  }

  predicate SameAt(a: map<string, bool>, b: map<string, bool>, n: string) {
    if n in a then n in b && a[n] == b[n] else n !in b
  }

  lemma TemporaryDiffers(name: string)
    ensures Temporary(name) != name
  {
    assert |Temporary(name)| == |name| + 4;
  }

  lemma WrittenPush(ds: seq<Decision>, d: Decision, n: string)
    requires DistinctNames(ds + [d])
    ensures DistinctNames(ds) && (Active(d) ==> d.shimName !in ActiveNames(ds))
    ensures IsTemporary(ds + [d], n) <==> IsTemporary(ds, n) || (Active(d) && Temporary(d.shimName) == n)
    ensures n in ActiveNames(ds) ==>
              (Clobbered(ds + [d], n) <==> Clobbered(ds, n) || (Active(d) && Temporary(d.shimName) == n))
    ensures Active(d) ==> !Clobbered(ds + [d], d.shimName)
  {
    hide Temporary;
    var all := ds + [d];
    assert all[|ds|] == d && forall i :: 0 <= i < |ds| ==> all[i] == ds[i];
    assert forall x :: x in all <==> x in ds || x == d;
    if n in ActiveNames(ds) {
      var x :| x in ds && Active(x) && x.shimName == n;
      var i :| 0 <= i < |ds| && ds[i] == x;
      assert Active(d) && Temporary(d.shimName) == n ==> Clobbered(all, n) by {
        assert all[i] == x && i < |ds|;
      }
    }
  }

  lemma {:induction false} WrittenIs(files: map<string, bool>, ds: seq<Decision>, n: string, managed: bool)
    requires DistinctNames(ds)
    ensures WrittenAs(files, ds, n, managed) <==> n in Written(files, ds) && Written(files, ds)[n] == managed
  {
    hide Temporary, DistinctNames, Clobbered, IsTemporary;
    if ds == [] {
      NothingWritten(n);
    } else {
      var init, last := ds[..|ds| - 1], ds[|ds| - 1];
      assert ds == init + [last];
      TemporaryDiffers(last.shimName);
      WrittenPush(init, last, n);
      ActiveNamesPush(init, last);
      WrittenIs(files, init, n, managed);
    }
  }

  lemma NothingWritten(n: string)
    ensures ActiveNames([]) == {} && !IsTemporary([], n)
  {
  }

  /** The shim directory (true marks a managed shim) and the names in the manifest. `unseen`
      counts the failures nobody notices: reads that failed and were taken for an empty
      result, and files whose end was lost when they were closed; `failed` the operations that
      reported a failure. */
  class BinDir {
    var files: map<string, bool>
    var manifest: set<string>
    var unseen: nat
    var failed: nat

    /** A step whose outcome only the system decides. */
    method Try() returns (ok: bool)
      modifies this`failed
      ensures failed == old(failed) + if ok then 0 else 1
    {
      ok := *;
      if !ok {
        failed := failed + 1;
      }
    }

    /** Write the temporary file, then rename it over the shim. */
    method WriteShim(name: string) returns (ok: bool)
      modifies this`files, this`unseen, this`failed
      ensures unseen >= old(unseen) && failed == old(failed) + if ok then 0 else 1
      ensures ok ==> name in files && files == (old(files) - {Temporary(name)})[name := files[name]]
      ensures ok && unseen == old(unseen) ==> files[name]
      ensures forall n :: n != Temporary(name) && (ok ==> n != name) ==> SameAt(files, old(files), n)
    {
      TemporaryDiffers(name);
      var tmp := Temporary(name);
      ok := Try();
      var marked: bool := *;
      if ok {
        files := (files - {tmp})[name := marked];
        if !marked {
          unseen := unseen + 1;
        }
      } else {
        var created, unlinked: bool := *, *;
        if created {
          files := if unlinked then files - {tmp} else files[tmp := marked];
        }
      }
    }

    method RemoveFile(name: string) returns (ok: bool)
      modifies this`files, this`failed
      ensures failed == old(failed) + if ok then 0 else 1
      ensures files == if ok then old(files) - {name} else old(files)
    {
      ok := Try();
      if ok {
        files := files - {name};
      }
    }

    method WriteManifest(names: set<string>) returns (ok: bool)
      modifies this`manifest, this`unseen, this`failed
      ensures unseen >= old(unseen) && failed == old(failed) + if ok then 0 else 1
      ensures ok && unseen == old(unseen) ==> manifest == names
      ensures if ok then manifest <= names else manifest == old(manifest)
    {
      ok := Try();
      if ok {
        var kept: set<string> :| kept <= names;
        if kept != names {
          unseen := unseen + 1;
        }
        manifest := kept;
      }
    }

    /** The names in the manifest and the managed files a scan finds. */
    method LoadManaged() returns (found: set<string>)
      modifies this`unseen
      ensures unseen >= old(unseen) && found <= manifest + Managed()
      ensures unseen == old(unseen) ==> found == manifest + set n | n in Managed() && Visible(n)
    {
      found := manifest + set n | n in Managed() && Scanned(n);
      forall n
        ensures Scanned(n) <==> Visible(n)
      {
        LikelyIsPlain(n);
      }
      var read: set<string> :| read <= found;
      if read != found {
        unseen := unseen + 1;
        found := read;
      }
    }

    function Managed(): set<string>
      reads this
    {
      set n | n in files && files[n]
    }

    /** Every managed shim can be found again, by a scan or in the manifest. */
    ghost predicate Findable()
      reads this
    {
      forall n :: n in Managed() ==> Visible(n) || n in manifest
    }

    /** The write, cleanup and manifest steps. A shim that cannot be written is skipped. On
        success the managed files are the decided shims, except those whose name served as a
        temporary file after they were written. */
    method Install(decided: seq<Decision>) returns (ok: bool, decisions: seq<Decision>)
      requires Named(decided) && DistinctNames(decided)
      modifies this
      ensures unseen >= old(unseen) && (ok <==> failed == old(failed)) && failed >= old(failed)
      ensures (ok ==> decisions == decided) && DroppedFrom(decided, decisions)
      ensures ok && unseen == old(unseen) ==>
                && manifest == ActiveNames(decided)
                && (forall n :: n in ActiveNames(decided) ==> (n in Managed() <==> !Clobbered(decided, n)))
                && (old(Findable()) ==> Managed() <= ActiveNames(decided) && Findable())
      ensures forall n :: n in old(files) && !old(files)[n] && n !in old(manifest) &&
                          n !in ActiveNames(decided) && !IsTemporary(decided, n) ==>
                            n in files && !files[n]
    {
      hide Temporary, DistinctNames, Clobbered, IsTemporary;
      ghost var unseen0, files0 := unseen, files;
      var oldManaged := LoadManaged();
      ghost var loadedWell := unseen == unseen0;
      var newManaged;
      ok, decisions, newManaged := WriteShims(decided);
      ghost var written := files;
      var stale := oldManaged - newManaged;
      var todo := stale;
      while todo != {}
        invariant todo <= stale
        invariant forall n :: n in files ==> n in written && files[n] == written[n]
        invariant forall n :: n in written && n !in stale ==> n in files
        invariant ok ==> forall n :: n in stale - todo ==> n !in files
        invariant manifest == old(manifest) && unseen >= unseen0
        invariant (ok <==> failed == old(failed)) && failed >= old(failed)
        invariant ok ==> decisions == decided && newManaged == ActiveNames(decided)
        invariant ok && unseen == unseen0 ==> loadedWell && written == Written(files0, decided)
      {
        var n :| n in todo;
        todo := todo - {n};
        var removed := RemoveFile(n);
        ok := ok && removed;
      }
      var recorded := WriteManifest(set d | d in decisions && d.shimName != "" :: d.shimName);
      ok := ok && recorded;
      if ok && unseen == unseen0 {
        forall n
          ensures n in ActiveNames(decided) ==> (n in Managed() <==> !Clobbered(decided, n))
          ensures old(Findable()) && n in Managed() ==> n in ActiveNames(decided)
        {
          WrittenIs(files0, decided, n, true);
          assert WrittenAs(files0, decided, n, true) <==> n in written && written[n];
        }
      }
    }

    /** The loop that writes the shims. */
    method WriteShims(decided: seq<Decision>) returns (ok: bool, decisions: seq<Decision>, newManaged: set<string>)
      requires Named(decided)
      modifies this`files, this`unseen, this`failed
      ensures unseen >= old(unseen) && (ok <==> failed == old(failed)) && failed >= old(failed)
      ensures (ok ==> decisions == decided) && DroppedFrom(decided, decisions)
      ensures newManaged == ActiveNames(decisions) <= ActiveNames(decided)
      ensures Named(decisions)
      ensures ok && unseen == old(unseen) ==> files == Written(old(files), decided)
      ensures forall n :: n !in ActiveNames(decided) && !IsTemporary(decided, n) ==>
                            SameAt(files, old(files), n)
    {
      hide Temporary, IsLikelyCommandName;
      ok, decisions := true, decided;
      newManaged := {};
      NothingWritten("");
      for i := 0 to |decided|
        invariant DroppedFrom(decided, decisions) && decisions[i..] == decided[i..] && unseen >= old(unseen)
        invariant (ok <==> failed == old(failed)) && failed >= old(failed)
        invariant ok ==> decisions == decided
        invariant newManaged == ActiveNames(decisions[..i]) <= ActiveNames(decided)
        invariant Named(decisions)
        invariant ok && unseen == old(unseen) ==> files == Written(old(files), decided[..i])
        invariant forall n :: n !in ActiveNames(decided) && !IsTemporary(decided, n) ==>
                                SameAt(files, old(files), n)
      {
        var d := decisions[i];
        assert d == decided[i..][0] == decided[i] && decided[i] in decided && d in decisions;
        assert decided[..i + 1][..i] == decided[..i];
        ghost var before := decisions;
        if Active(d) {
          assert d.shimName in ActiveNames(decided) && IsTemporary(decided, Temporary(d.shimName));
          ghost var files1 := files;
          var written := WriteShim(d.shimName);
          forall n | n !in ActiveNames(decided) && !IsTemporary(decided, n)
            ensures SameAt(files, old(files), n)
          {
            assert SameAt(files, files1, n);
          }
          if written {
            newManaged := newManaged + {d.shimName};
          } else {
            decisions := decisions[i := d.(mode := Skipped, shimName := "")];
            ok := false;
          }
        }
        assert decisions[..i + 1] == before[..i] + [decisions[i]];
        assert decisions[i + 1..] == before[i..][1..] == decided[i..][1..] == decided[i + 1..];
        ActiveNamesPush(before[..i], decisions[i]);
      }
      assert decisions[..|decided|] == decisions && decided[..|decided|] == decided;
    }
  }

  lemma {:induction false} DecisionsNamed(cs: seq<Candidate>, gs: seq<Group>, j: nat, system: set<string>)
    requires IsGrouping(cs, gs) && j <= |gs| && forall c :: c in cs ==> c.commandName != ""
    ensures Named(AllState(gs, j, system).decisions)
  {
    hide Increasing, IsGroup, GroupState, Named;
    if j == 0 {
      NoneNamed();
    } else {
      DecisionsNamed(cs, gs, j - 1, system);
      GroupNamed(cs, AllState(gs, j - 1, system), gs[j - 1], |gs[j - 1].providers|, system);
    }
  }

  lemma {:induction false} GroupNamed(cs: seq<Candidate>, st: Alloc, g: Group, i: nat, system: set<string>)
    requires IsGroup(cs, g) && i <= |g.providers| && forall c :: c in cs ==> c.commandName != ""
    requires Named(st.decisions)
    ensures Named(GroupState(st, g, i, system).decisions)
  {
    hide Increasing, InSystem, Named, DecideOne;
    if i > 0 {
      GroupNamed(cs, st, g, i - 1, system);
      var before, p := GroupState(st, g, i - 1, system), g.providers[i - 1];
      assert p in g.providers;
      OneNamed(p, i == 1, before.taken, system);
      PushNamed(before, if InSystem(g.command, system) then Decision(p, "", Skipped)
                        else DecideOne(p, i == 1, before.taken, system));
    }
  }

  lemma OneNamed(p: Candidate, first: bool, taken: set<string>, system: set<string>)
    requires p.commandName != ""
    ensures var d := DecideOne(p, first, taken, system); Active(d) <==> d.shimName != ""
  {
    hide InSystem, MakeNamespaced;
  }

  lemma PushNamed(st: Alloc, d: Decision)
    requires Named(st.decisions) && (Active(d) <==> d.shimName != "")
    ensures Named(Push(st, d).decisions)
  {
  }

  /** rebuild_command_index_and_shims: when every file operation succeeds, the manifest holds
      exactly the active shims of a sound allocation, and so does the directory if and only if
      no shim is clobbered by a later one. */
  method Rebuild(bin: BinDir, cs: seq<Candidate>, system: set<string>)
    returns (ok: bool, decisions: seq<Decision>, ghost gs: seq<Group>)
    requires forall c :: c in cs ==> c.commandName != ""
    modifies bin
    ensures IsGrouping(cs, gs) && SoundAlloc(AllState(gs, |gs|, system), system)
    ensures bin.unseen >= old(bin.unseen) && (ok <==> bin.failed == old(bin.failed))
    ensures DroppedFrom(AllState(gs, |gs|, system).decisions, decisions)
    ensures ok ==> decisions == AllState(gs, |gs|, system).decisions && Allocated(gs, |gs|, decisions, system)
    ensures ok && bin.unseen == old(bin.unseen) ==> bin.manifest == AllState(gs, |gs|, system).taken
    ensures ok && bin.unseen == old(bin.unseen) && old(bin.Findable()) ==>
              && bin.Findable() && bin.Managed() <= bin.manifest
              && (bin.Managed() == bin.manifest <==>
                  forall n :: n in AllState(gs, |gs|, system).taken ==> !Clobbered(AllState(gs, |gs|, system).decisions, n))
  {
    hide Increasing, IsGroup, IsGrouping, AllState, Clobbered, Allocated;
    var decided;
    decided, gs := DecideShims(cs, system);
    DecisionsNamed(cs, gs, |gs|, system);
    AllocationIsSound(cs, gs, |gs|, system);
    AllStateFits(cs, gs, |gs|, system);
    assert ActiveNames(decided) == AllState(gs, |gs|, system).taken;
    ok, decisions := bin.Install(decided);
  }

  predicate EndsInTmp(name: string) { |name| >= 4 && name[|name| - 4..] == ".tmp" }

  lemma TemporaryEndsInTmp(name: string)
    ensures EndsInTmp(Temporary(name))
  {
    assert Temporary(name)[|name|..] == ".tmp";
  }

  lemma NamespacedEnd(packageName: string, commandName: string)
    ensures EndsInTmp(MakeNamespaced(packageName, commandName)) ==> EndsInTmp(commandName)
  {
    var s := MakeNamespaced(packageName, commandName);
    if EndsInTmp(s) && s != "" {
      assert s[|packageName|] == '-' && s[|packageName| + 1..] == commandName;
      if |commandName| >= 4 {
        assert s[|s| - 4..] == commandName[|commandName| - 4..];
      }
    }
  }

  /** Nothing is clobbered where no command is called something.tmp. */
  lemma NoTmpNoClobber(cs: seq<Candidate>, gs: seq<Group>, system: set<string>, n: string)
    requires IsGrouping(cs, gs) && forall c :: c in cs ==> !EndsInTmp(c.commandName)
    ensures !Clobbered(AllState(gs, |gs|, system).decisions, n)
  {
    hide AllState, IsGrouping, EndsInTmp, Temporary, IsLikelyCommandName, InSystem, MakeNamespaced;
    var ds := AllState(gs, |gs|, system).decisions;
    AllocationIsSound(cs, gs, |gs|, system);
    AllFromCandidates(cs, gs, |gs|, system);
    if Clobbered(ds, n) {
      var i, j :| 0 <= i < j < |ds| && Active(ds[i]) && Active(ds[j]) && ds[i].shimName == n && Temporary(ds[j].shimName) == n;
      TemporaryEndsInTmp(ds[j].shimName);
      assert ds[i] in ds;
      NamespacedEnd(ds[i].provider.packageName, ds[i].provider.commandName);
    }
  }

  lemma {:induction false} GroupFromCandidates(cs: seq<Candidate>, st: Alloc, g: Group, i: nat, system: set<string>)
    requires IsGroup(cs, g) && i <= |g.providers| && forall d :: d in st.decisions ==> d.provider in cs
    ensures forall d :: d in GroupState(st, g, i, system).decisions ==> d.provider in cs
  {
    hide Increasing, InSystem, MakeNamespaced, IsLikelyCommandName;
    if i > 0 {
      GroupFromCandidates(cs, st, g, i - 1, system);
      assert g.providers[i - 1] in g.providers;
    }
  }

  lemma {:induction false} AllFromCandidates(cs: seq<Candidate>, gs: seq<Group>, j: nat, system: set<string>)
    requires IsGrouping(cs, gs) && j <= |gs|
    ensures forall d :: d in AllState(gs, j, system).decisions ==> d.provider in cs
  {
    hide Increasing, IsGroup, GroupState;
    if j > 0 {
      AllFromCandidates(cs, gs, j - 1, system);
      GroupFromCandidates(cs, AllState(gs, j - 1, system), gs[j - 1], |gs[j - 1].providers|, system);
    }
  }

  // ----- a clobbered shim -----

  const VI_A: Candidate := Candidate("a", "vi", "/a/bin/vi", false)
  const VI_B: Candidate := Candidate("b", "vi", "/b/bin/vi", false)
  const TMP_C: Candidate := Candidate("c", "b-vi.tmp", "/c/bin/b-vi.tmp", false)

  lemma ExampleOrder()
    ensures Less("b-vi.tmp", "vi") && Less("a", "b")
  {
  }

  lemma ExampleNames()
    ensures MakeNamespaced("b", "vi") == "b-vi" && Temporary("b-vi") == "b-vi.tmp" != "vi" && IsLikelyCommandName("b-vi")
    ensures "b-vi" != "vi" && "b-vi" != "b-vi.tmp"
  {
  }

  lemma ExampleGrouping()
    ensures IsGrouping([VI_A, VI_B, TMP_C], [Group("b-vi.tmp", [TMP_C]), Group("vi", [VI_A, VI_B])])
  {
    hide Less, SameKey;
    var cs, gs := [VI_A, VI_B, TMP_C], [Group("b-vi.tmp", [TMP_C]), Group("vi", [VI_A, VI_B])];
    ExampleOrder();
    ExampleNames();
    KeyIsItsOwn(VI_A);
    KeyIsItsOwn(VI_B);
    KeyIsItsOwn(TMP_C);
    assert Commands(gs) == ["b-vi.tmp", "vi"];
    assert cs[0] in cs && cs[1] in cs && cs[2] in cs;
  }

  lemma KeyIsItsOwn(c: Candidate)
    ensures SameKey(c, c)
  {
  }

  /** Two packages provide vi, and a third a command that is called like the temporary file
      of the second one's namespaced shim: that command's shim is lost. */
  lemma ClobberExample()
    ensures var cs, gs := [VI_A, VI_B, TMP_C], [Group("b-vi.tmp", [TMP_C]), Group("vi", [VI_A, VI_B])];
            var st := AllState(gs, |gs|, {});
            IsGrouping(cs, gs) && "b-vi.tmp" in st.taken && Clobbered(st.decisions, "b-vi.tmp")
  {
    hide Less, IsGrouping;
    ExampleGrouping();
    ExampleNames();
    hide MakeNamespaced, IsLikelyCommandName, Temporary;
    var gs := [Group("b-vi.tmp", [TMP_C]), Group("vi", [VI_A, VI_B])];
    var none := Alloc([], {});
    assert AllState(gs, 0, {}) == none;
    var one := Alloc([Decision(TMP_C, "b-vi.tmp", Canonical)], {"b-vi.tmp"});
    assert GroupState(none, gs[0], 0, {}) == none;
    assert GroupState(none, gs[0], 1, {}) == one;
    assert AllState(gs, 1, {}) == one;
    var two := Push(one, Decision(VI_A, "vi", Canonical));
    assert GroupState(one, gs[1], 0, {}) == one;
    assert GroupState(one, gs[1], 1, {}) == two;
    var three := Push(two, Decision(VI_B, "b-vi", Namespaced));
    assert GroupState(one, gs[1], 2, {}) == three;
    assert AllState(gs, 2, {}) == three;
    assert three.decisions[0].shimName == "b-vi.tmp" && three.decisions[2].shimName == "b-vi";
  }
}
