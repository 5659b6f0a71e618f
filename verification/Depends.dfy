/** The Depends field parser shared, word for word, by the status file and the repository
    index readers. */
module Depends {
  import opened Wrappers
  import opened Text

  function Kept(s: string): seq<string> { if s == "" then [] else [s] }

  /** Trimmed, non-empty parts. */
  function Groups(parts: seq<string>): seq<string>
    decreases |parts|
  {
    if parts == [] then [] else Kept(Trim(parts[0])) + Groups(parts[1..])
  }

  lemma GroupsNext(parts: seq<string>, i: nat)
    requires i < |parts|
    ensures Groups(parts[i..]) == Kept(Trim(parts[i])) + Groups(parts[i + 1..])
  {
    assert parts[i..][1..] == parts[i + 1..];
  }

  lemma GroupsEnds(parts: seq<string>)
    ensures [] + Groups(parts[0..]) == Groups(parts) && Groups(parts[|parts|..]) == []
  {
    assert parts[0..] == parts;
  }

  method SplitAndTrim(input: string, delim: char) returns (parts: seq<string>)
    ensures parts == Groups(Split(input, delim))
  {
    hide Groups, Trim, Split;
    var pieces := Split(input, delim);
    parts := [];
    var i := 0;
    GroupsEnds(pieces);
    while i < |pieces|
      invariant 0 <= i <= |pieces| && parts + Groups(pieces[i..]) == Groups(pieces)
    {
      GroupsNext(pieces, i);
      ConcatAssoc(parts, Kept(Trim(pieces[i])), Groups(pieces[i + 1..]));
      var current := Trim(pieces[i]);
      if current != "" {
        parts := parts + [current];
      }
      i := i + 1;
    }
  }

  predicate EndsName(c: char) { IsSpace(c) || c == '(' }

  /** The characters before the first space or parenthesis. */
  function NamePart(s: string): string {
    if s == "" || EndsName(s[0]) then "" else [s[0]] + NamePart(s[1..])
  }

  lemma {:induction false} NamePartIs(s: string, i: nat)
    requires i <= |s| && (forall k :: 0 <= k < i ==> !EndsName(s[k])) && (i < |s| ==> EndsName(s[i]))
    ensures NamePart(s) == s[..i]
  {
    if i > 0 {
      NamePartIs(s[1..], i - 1);
      assert s[..i] == [s[0]] + s[1..][..i - 1];
    }
  }

  function FirstAlternative(group: string): string {
    match Find(group, '|')
    case Some(k) => Trim(group[..k])
    case None => group
  }

  function DropArchitecture(name: string): string {
    match Find(name, ':')
    case Some(k) => Trim(name[..k])
    case None => name
  }

  /** The package name of one dependency group: first alternative, version and architecture
      dropped; empty if nothing is left. */
  function GroupName(group: string): string {
    DropArchitecture(Trim(NamePart(FirstAlternative(group))))
  }

  function Names(groups: seq<string>): seq<string>
    decreases |groups|
  {
    if groups == [] then [] else Kept(GroupName(groups[0])) + Names(groups[1..])
  }

  lemma NamesNext(groups: seq<string>, i: nat)
    requires i < |groups|
    ensures Names(groups[i..]) == Kept(GroupName(groups[i])) + Names(groups[i + 1..])
  {
    assert groups[i..][1..] == groups[i + 1..];
  }

  lemma NamesEnds(groups: seq<string>)
    ensures [] + Names(groups[0..]) == Names(groups) && Names(groups[|groups|..]) == []
  {
    assert groups[0..] == groups;
  }

  /** Meaning of parseDependsField. */
  function Parsed(raw: string): seq<string> { Names(Groups(Split(raw, ','))) }

  lemma NothingParsed()
    ensures Parsed("") == []
  {
  }

  method ParseDependsField(raw: string) returns (result: seq<string>)
    ensures result == Parsed(raw)
  {
    hide Names, GroupName, Groups, Split;
    result := [];
    if raw == "" {
      NothingParsed();
      return;
    }
    var groups := SplitAndTrim(raw, ',');
    var i := 0;
    NamesEnds(groups);
    while i < |groups|
      invariant 0 <= i <= |groups| && result + Names(groups[i..]) == Names(groups)
    {
      NamesNext(groups, i);
      var name := NameOfGroup(groups[i]);
      ConcatAssoc(result, Kept(name), Names(groups[i + 1..]));
      if name != "" {
        result := result + [name];
      }
      i := i + 1;
    }
  }

  method NameOfGroup(group: string) returns (name: string)
    ensures name == GroupName(group)
  {
    hide Trim, Find, NamePart;
    var firstAlt := group;
    match Find(group, '|') {
      case Some(k) => firstAlt := Trim(group[..k]);
      case None =>
    }
    name := "";
    var i := 0;
    while i < |firstAlt| && !EndsName(firstAlt[i])
      invariant i <= |firstAlt| && name == firstAlt[..i]
      invariant forall k :: 0 <= k < i ==> !EndsName(firstAlt[k])
    {
      name := name + [firstAlt[i]];
      i := i + 1;
    }
    NamePartIs(firstAlt, i);
    name := Trim(name);
    match Find(name, ':') {
      case Some(k) => name := Trim(name[..k]);
      case None =>
    }
  }

  // ----- what the parser produces -----

  predicate NameChar(c: char) { !IsSpace(c) && c != ',' && c != '|' && c != '(' && c != ':' }

  ghost predicate CleanName(d: string) {
    d != "" && forall c :: c in d ==> NameChar(c)
  }

  lemma {:induction false} NamePartChars(s: string)
    ensures forall c :: c in NamePart(s) ==> c in s && !EndsName(c)
    ensures (forall c :: c in s ==> !EndsName(c)) ==> NamePart(s) == s
  {
    if s != "" && !EndsName(s[0]) {
      NamePartChars(s[1..]);
      assert s == [s[0]] + s[1..];
    }
  }

  lemma FirstAlternativeChars(group: string)
    ensures forall c :: c in FirstAlternative(group) ==> c in group && c != '|'
  {
    hide Trim;
    match Find(group, '|')
    case Some(k) => TrimChars(group[..k]);
    case None =>
  }

  lemma DropArchitectureChars(name: string)
    ensures forall c :: c in DropArchitecture(name) ==> c in name && c != ':'
  {
    hide Trim;
    match Find(name, ':')
    case Some(k) => TrimChars(name[..k]);
    case None =>
  }

  lemma GroupNameClean(group: string)
    requires ',' !in group
    ensures forall c :: c in GroupName(group) ==> NameChar(c)
  {
    hide Trim, NamePart, FirstAlternative, DropArchitecture;
    var alt := FirstAlternative(group);
    FirstAlternativeChars(group);
    NamePartChars(alt);
    TrimChars(NamePart(alt));
    DropArchitectureChars(Trim(NamePart(alt)));
  }

  lemma {:induction false} GroupsLackDelim(parts: seq<string>, delim: char)
    requires forall p :: p in parts ==> delim !in p
    ensures forall g :: g in Groups(parts) ==> delim !in g
  {
    if parts != [] {
      assert parts[0] in parts && forall p :: p in parts[1..] ==> p in parts;
      TrimChars(parts[0]);
      GroupsLackDelim(parts[1..], delim);
    }
  }

  lemma {:induction false} NamesClean(groups: seq<string>)
    requires forall g :: g in groups ==> ',' !in g
    ensures forall d :: d in Names(groups) ==> CleanName(d)
  {
    hide GroupName;
    if groups != [] {
      assert groups[0] in groups && forall g :: g in groups[1..] ==> g in groups;
      GroupNameClean(groups[0]);
      NamesClean(groups[1..]);
    }
  }

  /** Every parsed dependency is a bare package name; in particular it carries no
      architecture qualifier. */
  lemma ParsedIsClean(raw: string)
    ensures forall d :: d in Parsed(raw) ==> CleanName(d) && ':' !in d
  {
    hide Split, Groups, Names;
    SplitLacksDelim(raw, ',');
    GroupsLackDelim(Split(raw, ','), ',');
    NamesClean(Groups(Split(raw, ',')));
    assert !NameChar(':');
  }

  // ----- join and reparse -----

  /** The ", "-joined list of the status writer. */
  function Joined(ds: seq<string>): string {
    if ds == [] then ""
    else if |ds| == 1 then ds[0]
    else ds[0] + ", " + Joined(ds[1..])
  }

  lemma CleanTrims(d: string, lead: string)
    requires CleanName(d) && (lead == "" || lead == " ")
    ensures Trim(lead + d) == d
  {
    TrimIdIff(d);
    assert d[0] in d && d[|d| - 1] in d;
    if lead == " " {
      assert (lead + d)[1..] == d;
    } else {
      assert lead + d == d;
    }
  }

  lemma CleanIsOwnName(d: string)
    requires CleanName(d)
    ensures GroupName(d) == d && ',' !in d
  {
    hide Trim, NamePart;
    TrimIdIff(d);
    NamePartChars(d);
    assert d[0] in d && d[|d| - 1] in d;
    assert !NameChar('|') && !NameChar(':') && !NameChar('(') && !NameChar(',');
  }

  lemma {:induction false} SplitJoined(ds: seq<string>, lead: string)
    requires (forall d :: d in ds ==> CleanName(d)) && (lead == "" || lead == " ")
    requires ds != []
    ensures Groups(Split(lead + Joined(ds), ',')) == ds
  {
    hide Trim, Split, CleanName, Find;
    assert ds[0] in ds && forall d :: d in ds[1..] ==> d in ds;
    CleanTrims(ds[0], lead);
    CleanIsOwnName(ds[0]);
    var first := lead + ds[0];
    CleanNonEmpty(ds[0]);
    if |ds| == 1 {
      SplitOne(first, ',', "");
      GroupsCons(first, []);
      assert ds == [ds[0]] && Groups([first] + []) == [ds[0]] + Groups([]);
    } else {
      var rest := " " + Joined(ds[1..]);
      JoinedHead(ds, lead);
      SplitOne(first, ',', rest);
      SplitJoined(ds[1..], " ");
      GroupsCons(first, Split(rest, ','));
    }
  }

  lemma JoinedHead(ds: seq<string>, lead: string)
    requires |ds| > 1
    ensures lead + Joined(ds) == lead + ds[0] + [','] + (" " + Joined(ds[1..]))
  {
  }

  lemma GroupsCons(part: string, parts: seq<string>)
    ensures Groups([part] + parts) == Kept(Trim(part)) + Groups(parts)
  {
    assert ([part] + parts)[1..] == parts;
  }

  lemma CleanNonEmpty(d: string)
    requires CleanName(d)
    ensures d != ""
  {
  }

  lemma {:induction false} CleanNames(ds: seq<string>)
    requires forall d :: d in ds ==> CleanName(d)
    ensures Names(ds) == ds
  {
    hide GroupName, CleanName;
    if ds != [] {
      assert ds[0] in ds && forall d :: d in ds[1..] ==> d in ds;
      CleanIsOwnName(ds[0]);
      CleanNonEmpty(ds[0]);
      CleanNames(ds[1..]);
      assert ds == [ds[0]] + ds[1..];
    }
  }

  /** Bare names survive being joined and parsed again. */
  lemma ParsedJoined(ds: seq<string>)
    requires forall d :: d in ds ==> CleanName(d)
    ensures Parsed(Joined(ds)) == ds
  {
    if ds != [] {
      SplitJoined(ds, "");
      assert "" + Joined(ds) == Joined(ds);
      CleanNames(ds);
    }
  }

  /** For every raw field: what the parser read is read again from the joined form. */
  lemma ReparseIsStable(raw: string)
    ensures Parsed(Joined(Parsed(raw))) == Parsed(raw)
  {
    ParsedIsClean(raw);
    ParsedJoined(Parsed(raw));
  }

  // ----- what a dependency field says -----

  /** One group of a field: a bare name and what may follow it. */
  datatype Item = Item(name: string, rest: string)

  /** Nothing, or white space, a version, an alternative or an architecture. */
  ghost predicate Decoration(rest: string) {
    rest == "" || rest[0] == ' ' || '\t' <= rest[0] <= '\r' || rest[0] == '(' || rest[0] == '|' || rest[0] == ':'
  }

  /** Free of white space and of what separates or decorates the names of a field. */
  ghost predicate Bare(d: string) {
    && d != ""
    && forall i :: 0 <= i < |d| ==>
         d[i] != ' ' && !('\t' <= d[i] <= '\r') && d[i] != ',' && d[i] != '|' && d[i] != '(' && d[i] != ':'
  }

  ghost predicate Proper(it: Item) {
    Bare(it.name) && Decoration(it.rest) && forall i :: 0 <= i < |it.rest| ==> it.rest[i] != ','
  }

  lemma BareIsClean(d: string)
    ensures Bare(d) <==> CleanName(d)
  {
    assert forall i :: 0 <= i < |d| ==> d[i] in d;
  }

  lemma RTrimStep(s: string)
    ensures RTrim(s) == if s != "" && IsSpace(s[|s| - 1]) then RTrim(s[..|s| - 1]) else s
    ensures s != "" && !IsSpace(s[0]) ==> LTrim(s) == s
  {
  }

  lemma {:induction false} RTrimmed(name: string, rest: string) returns (left: string)
    requires name != "" && !IsSpace(name[|name| - 1])
    ensures RTrim(name + rest) == name + left && left <= rest
  {
    hide RTrim, IsSpace;
    var s := name + rest;
    RTrimStep(s);
    if rest == "" {
      left := rest;
      assert s == name;
    } else if !IsSpace(rest[|rest| - 1]) {
      left := rest;
      assert s[|s| - 1] == rest[|rest| - 1];
    } else {
      var init := rest[..|rest| - 1];
      left := RTrimmed(name, init);
      assert s[|s| - 1] == rest[|rest| - 1] && s[..|s| - 1] == name + init;
    }
  }

  /** Trimming a group leaves its name and the beginning of what follows. */
  lemma TrimmedItem(name: string, rest: string) returns (left: string)
    requires Bare(name)
    ensures Trim(name + rest) == name + left && left <= rest
  {
    hide RTrim, LTrim;
    assert !IsSpace(name[|name| - 1]) && !IsSpace(name[0]);
    RTrimStep(name + rest);
    left := RTrimmed(name, rest);
  }

  lemma Prefixes(name: string, rest: string, left: string)
    requires left <= rest && Decoration(rest)
    ensures Decoration(left)
  {
  }

  lemma {:induction false} NamePartOf(name: string, rest: string)
    requires forall i :: 0 <= i < |name| ==> !EndsName(name[i])
    ensures NamePart(name + rest) == name + NamePart(rest)
  {
    if name == "" {
      assert name + rest == rest;
    } else {
      assert (name + rest)[1..] == name[1..] + rest;
      NamePartOf(name[1..], rest);
    }
  }

  lemma FoundBehind(name: string, rest: string, k: nat)
    requires Bare(name) && k < |name + rest| && (name + rest)[k] == '|'
    ensures k >= |name| && (name + rest)[..k] == name + rest[..k - |name|]
  {
    assert forall i :: 0 <= i < |name| ==> (name + rest)[i] == name[i];
  }

  lemma FirstOf(name: string, rest: string) returns (left: string)
    requires Bare(name) && Decoration(rest)
    ensures FirstAlternative(name + rest) == name + left && Decoration(left) && (left != "" ==> left[0] != '|')
  {
    hide Trim, Find, Bare, Decoration;
    var s := name + rest;
    FirstAlternativeChars(s);
    match Find(s, '|')
    case Some(k) =>
      FoundBehind(name, rest, k);
      var head := rest[..k - |name|];
      left := TrimmedItem(name, head);
      Prefixes(name, rest, head);
      Prefixes(name, head, left);
      assert left != "" ==> left[0] in name + left;
    case None =>
      left := rest;
      assert left != "" ==> left[0] in name + left;
  }

  lemma ArchitectureOff(name: string, rest: string)
    requires Bare(name) && (rest == "" || rest[0] == ':')
    ensures DropArchitecture(name + rest) == name
  {
    hide Trim;
    var left := TrimmedItem(name, "");
    assert name + "" == name && left == "";
    if rest == "" {
      assert name + rest == name;
    } else {
      FindFirst(name, ':', rest[1..]);
      assert name + rest == name + [':'] + rest[1..];
      assert (name + rest)[..|name|] == name;
    }
  }

  /** A group stands for its name, whatever decorates it. */
  lemma GroupNameIs(name: string, rest: string)
    requires Bare(name) && Decoration(rest)
    ensures GroupName(name + rest) == name
  {
    hide Trim, FirstAlternative, DropArchitecture, NamePart, Decoration;
    BareIsClean(name);
    var left := FirstOf(name, rest);
    NamePartOf(name, left);
    var tail := NamePart(left);
    TailIsArchitecture(left);
    var kept := TrimmedItem(name, tail);
    ArchitectureOff(name, kept);
  }

  lemma TailIsArchitecture(left: string)
    requires Decoration(left) && (left != "" ==> left[0] != '|')
    ensures var tail := NamePart(left); tail == "" || tail[0] == ':'
  {
  }

  function TextOf(it: Item): string { it.name + it.rest }

  function Texts(items: seq<Item>): (r: seq<string>)
    ensures |r| == |items| && forall i :: 0 <= i < |r| ==> r[i] == TextOf(items[i])
  {
    seq(|items|, i requires 0 <= i < |items| => TextOf(items[i]))
  }

  lemma LeadIsTrimmed(lead: string, s: string)
    requires lead == "" || lead == " "
    ensures Trim(lead + s) == Trim(s)
  {
    if lead == " " {
      TrimLead(s);
    } else {
      assert lead + s == s;
    }
  }

  /** The trimmed groups of a field, one for each item. */
  ghost predicate GroupsFor(gs: seq<string>, items: seq<Item>) {
    |gs| == |items| && forall i :: 0 <= i < |gs| ==> gs[i] == Trim(TextOf(items[i])) && gs[i] != ""
  }

  lemma ItemGroup(it: Item, lead: string)
    requires Proper(it) && (lead == "" || lead == " ")
    ensures Trim(lead + TextOf(it)) == Trim(TextOf(it)) != "" && ',' !in lead + TextOf(it) && lead + TextOf(it) != ""
    ensures GroupName(Trim(TextOf(it))) == it.name
  {
    hide Trim, GroupName, Bare, Decoration;
    LeadIsTrimmed(lead, TextOf(it));
    var left := TrimmedItem(it.name, it.rest);
    Prefixes(it.name, it.rest, left);
    GroupNameIs(it.name, left);
    BareIsClean(it.name);
    CleanNonEmpty(it.name);
    assert !NameChar(',');
  }

  lemma {:induction false} ItemsAreSplit(items: seq<Item>, lead: string)
    requires items != [] && (forall it :: it in items ==> Proper(it)) && (lead == "" || lead == " ")
    ensures GroupsFor(Groups(Split(lead + Joined(Texts(items)), ',')), items)
  {
    hide Trim, Split, Proper, TextOf;
    var ts, rest := Texts(items), items[1..];
    assert items[0] in items && forall it :: it in rest ==> it in items;
    var first := lead + ts[0];
    ItemGroup(items[0], lead);
    assert ts[1..] == Texts(rest);
    if |items| == 1 {
      SplitOne(first, ',', "");
      GroupsCons(first, []);
      assert Groups([first] + []) == [Trim(first)] + Groups([]);
    } else {
      JoinedHead(ts, lead);
      SplitOne(first, ',', " " + Joined(ts[1..]));
      ItemsAreSplit(rest, " ");
      GroupsCons(first, Split(" " + Joined(ts[1..]), ','));
    }
  }

  lemma {:induction false} NamesOfGroups(gs: seq<string>, items: seq<Item>)
    requires GroupsFor(gs, items) && forall it :: it in items ==> Proper(it)
    ensures |Names(gs)| == |items| && forall i :: 0 <= i < |items| ==> Names(gs)[i] == items[i].name
  {
    hide Trim, GroupName, Proper;
    if gs != [] {
      assert items[0] in items && forall it :: it in items[1..] ==> it in items;
      ItemGroup(items[0], "");
      NameIsSome(items[0]);
      NamesOfGroups(gs[1..], items[1..]);
    }
  }

  lemma NameIsSome(it: Item)
    requires Proper(it)
    ensures it.name != ""
  {
  }

  /** A dependency field is read as the names of its groups, in order, without what follows
      each name. */
  lemma FieldIsParsed(items: seq<Item>)
    requires forall it :: it in items ==> Proper(it)
    ensures var names := Parsed(Joined(Texts(items)));
            |names| == |items| && forall i :: 0 <= i < |items| ==> names[i] == items[i].name
  {
    hide Proper, Names, Groups, Split;
    if items == [] {
      NothingParsed();
      assert Texts(items) == [];
    } else {
      ItemsAreSplit(items, "");
      assert "" + Joined(Texts(items)) == Joined(Texts(items));
      NamesOfGroups(Groups(Split(Joined(Texts(items)), ',')), items);
    }
  }
}
