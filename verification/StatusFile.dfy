/** The dpkg-style status file: stanza parser, loader and writer. */
module StatusFile {
  import opened Wrappers
  import opened Text
  import opened StatusDb
  import Depends

  type Fields = map<string, string>

  function Get(fields: Fields, k: string): string { if k in fields then fields[k] else "" }

  // ----- stanza parser -----

  /** What the line loop carries: finished stanzas, the open one, and the key a continuation
      line extends. */
  datatype Reader = Reader(stanzas: seq<Fields>, fields: Fields, currentKey: string) {
    function Flushed(): Reader {
      if fields == map[] then this else Reader(stanzas + [fields], map[], "")
    }

    function Continued(line: string): Reader {
      if currentKey != "" && currentKey in fields
      then this.(fields := fields[currentKey := fields[currentKey] + "\n" + Trim(line)])
      else this
    }

    function WithField(line: string): Reader {
      match Find(line, ':')
      case None => this
      case Some(k) =>
        var key := Trim(line[..k]);
        if key == "" then this
        else Reader(stanzas, fields[key := Trim(line[k + 1..])], key)
    }

    function Next(raw: string): Reader {
      var line := DropCr(raw);
      if line == "" then Flushed()
      else if line[0] == ' ' || line[0] == '\t' then Continued(line)
      else WithField(line)
    }
  }

  function Start(): Reader { Reader([], map[], "") }

  function Read(r: Reader, ls: seq<string>): Reader {
    if ls == [] then r else Read(r, ls[..|ls| - 1]).Next(ls[|ls| - 1])
  }

  lemma ReadNext(r: Reader, ls: seq<string>, i: nat)
    requires i < |ls|
    ensures Read(r, ls[..i + 1]) == Read(r, ls[..i]).Next(ls[i])
  {
    assert ls[..i + 1][..i] == ls[..i];
  }

  lemma ReadEnds(r: Reader, ls: seq<string>)
    ensures Read(r, ls[..0]) == r && ls[..|ls|] == ls
  {
  }

  lemma {:induction false} ReadConcat(r: Reader, a: seq<string>, b: seq<string>)
    ensures Read(r, a + b) == Read(Read(r, a), b)
  {
    hide Reader.Next;
    if b == [] {
      assert a + b == a;
    } else {
      ReadConcat(r, a, b[..|b| - 1]);
      assert (a + b)[..|a + b| - 1] == a + b[..|b| - 1];
    }
  }

  /** Meaning of parseStanzas. */
  function Stanzas(ls: seq<string>): seq<Fields> { Read(Start(), ls).Flushed().stanzas }

  method ParseStanzas(content: string) returns (outStanzas: seq<Fields>)
    ensures outStanzas == Stanzas(Lines(content))
  {
    hide Read, Trim, Lines;
    var lines := Lines(content);
    outStanzas := [];
    var fields: Fields, currentKey := map[], "";
    ReadEnds(Start(), lines);
    for i := 0 to |lines|
      invariant Reader(outStanzas, fields, currentKey) == Read(Start(), lines[..i])
    {
      ReadNext(Start(), lines, i);
      var line := lines[i];
      if line != "" && line[|line| - 1] == '\r' {
        line := line[..|line| - 1];
      }
      if line == "" {
        if fields != map[] {
          outStanzas, fields, currentKey := outStanzas + [fields], map[], "";
        }
        continue;
      }
      if line[0] == ' ' || line[0] == '\t' {
        if currentKey != "" {
          var value := Trim(line);
          if currentKey in fields {
            fields := fields[currentKey := fields[currentKey] + "\n" + value];
          }
        }
        continue;
      }
      match Find(line, ':') {
        case None =>
        case Some(k) =>
          var key, value := Trim(line[..k]), Trim(line[k + 1..]);
          if key != "" {
            currentKey := key;
            fields := fields[key := value];
          }
      }
    }
    if fields != map[] {
      outStanzas := outStanzas + [fields];
    }
  }

  function WithReturns(ls: seq<string>): (r: seq<string>)
    ensures |r| == |ls| && forall i :: 0 <= i < |r| ==> r[i] == ls[i] + "\r"
  {
    seq(|ls|, i requires 0 <= i < |ls| => ls[i] + "\r")
  }

  lemma ReturnDropped(l: string)
    requires l == "" || l[|l| - 1] != '\r'
    ensures DropCr(l + "\r") == l == DropCr(l)
  {
    assert (l + "\r")[..|l|] == l;
  }

  /** Lines that end with a carriage return are read as those without. */
  lemma {:induction false} ReturnsIgnored(r: Reader, ls: seq<string>)
    requires forall l :: l in ls ==> l == "" || l[|l| - 1] != '\r'
    ensures Read(r, WithReturns(ls)) == Read(r, ls)
  {
    hide DropCr, Reader.Continued, Reader.WithField, Reader.Flushed;
    if ls != [] {
      var init, last := ls[..|ls| - 1], ls[|ls| - 1];
      ReturnsIgnored(r, init);
      assert WithReturns(ls)[..|ls| - 1] == WithReturns(init);
      ReturnDropped(last);
    }
  }

  // ----- field names -----

  datatype Key =
    | Package | Version | Architecture | Status | InstalledRoot | Repo | RepoDist | RepoComponent
    | InstallPrefix | TermuxPackage | Dependencies | AutoInstalled

  function Name(k: Key): string {
    match k
    case Package => "Package"
    case Version => "Version"
    case Architecture => "Architecture"
    case Status => "Status"
    case InstalledRoot => "Installed-Root"
    case Repo => "Repo"
    case RepoDist => "Repo-Dist"
    case RepoComponent => "Repo-Component"
    case InstallPrefix => "Install-Prefix"
    case TermuxPackage => "Termux-Package"
    case Dependencies => "Depends"
    case AutoInstalled => "Auto-Installed"
  }

  // ----- loader -----

  predicate Truthy(raw: string) {
    var s := ToLower(raw);
    s == "1" || s == "yes" || s == "true"
  }

  /** On are 1, and yes and true in any mixture of cases; everything else is off. */
  lemma TruthyIff(raw: string)
    ensures Truthy(raw) <==>
              || raw == "1"
              || (|raw| == 3 && raw[0] in {'y', 'Y'} && raw[1] in {'e', 'E'} && raw[2] in {'s', 'S'})
              || (|raw| == 4 && raw[0] in {'t', 'T'} && raw[1] in {'r', 'R'} && raw[2] in {'u', 'U'} && raw[3] in {'e', 'E'})
  {
    var s := ToLower(raw);
    if Truthy(raw) {
      assert |s| == |raw| && forall i :: 0 <= i < |s| ==> s[i] == Lower(raw[i]);
      if s == "1" {
        assert Lower(raw[0]) == '1';
        assert raw == [raw[0]];
      }
    }
    if |raw| == 3 && raw[0] in {'y', 'Y'} && raw[1] in {'e', 'E'} && raw[2] in {'s', 'S'} {
      assert s == "yes";
    }
    if |raw| == 4 && raw[0] in {'t', 'T'} && raw[1] in {'r', 'R'} && raw[2] in {'u', 'U'} && raw[3] in {'e', 'E'} {
      assert s == "true";
    }
    if raw == "1" {
      assert s == "1";
    }
  }

  function PackageOf(fields: Fields): InstalledPackage {
    InstalledPackage(
      Get(fields, Name(Package)), Get(fields, Name(Version)), Get(fields, Name(Architecture)), Get(fields, Name(Status)),
      Get(fields, Name(InstalledRoot)), Get(fields, Name(Repo)), Get(fields, Name(RepoDist)), Get(fields, Name(RepoComponent)),
      Get(fields, Name(InstallPrefix)), Depends.Parsed(Get(fields, Name(Dependencies))),
      Truthy(Get(fields, Name(AutoInstalled))), Truthy(Get(fields, Name(TermuxPackage))))
  }

  /** Later stanzas win; stanzas without a name are dropped. */
  function Loaded(stanzas: seq<Fields>): InstalledDb {
    if stanzas == [] then map[]
    else
      var before, pkg := Loaded(stanzas[..|stanzas| - 1]), PackageOf(stanzas[|stanzas| - 1]);
      if pkg.name == "" then before else before[pkg.name := pkg]
  }

  lemma LoadedNext(stanzas: seq<Fields>, i: nat)
    requires i < |stanzas|
    ensures var before, pkg := Loaded(stanzas[..i]), PackageOf(stanzas[i]);
            Loaded(stanzas[..i + 1]) == if pkg.name == "" then before else before[pkg.name := pkg]
  {
    hide PackageOf;
    assert stanzas[..i + 1][..i] == stanzas[..i];
  }

  lemma LoadedEnds(stanzas: seq<Fields>)
    ensures Loaded(stanzas[..0]) == map[] && stanzas[..|stanzas|] == stanzas
  {
  }

  /** The database a status file stands for. */
  function Meaning(text: string): InstalledDb { Loaded(Stanzas(Lines(text))) }

  /** What the file system answers for the status path. */
  datatype StatusText = Absent | Unreadable | Content(text: string)

  method LoadStatusFile(file: StatusText) returns (ok: bool, out: InstalledDb)
    ensures ok == !file.Unreadable?
    ensures out == if file.Content? then Meaning(file.text) else map[]
  {
    hide Loaded, Stanzas, Lines;
    out := map[];
    if file.Absent? {
      return true, out;
    }
    if file.Unreadable? {
      return false, out;
    }
    var stanzas := ParseStanzas(file.text);
    LoadedEnds(stanzas);
    for i := 0 to |stanzas|
      invariant out == Loaded(stanzas[..i])
    {
      LoadedNext(stanzas, i);
      var pkg := ReadPackage(stanzas[i]);
      if pkg.name == "" {
        continue;
      }
      out := out[pkg.name := pkg];
    }
    ok := true;
  }

  lemma NothingRead()
    ensures Depends.Parsed("") == [] && !Truthy("")
  {
    Depends.NothingParsed();
  }

  method ReadPackage(fields: Fields) returns (pkg: InstalledPackage)
    ensures pkg == PackageOf(fields)
  {
    hide Get, Truthy, Depends.Parsed;
    NothingRead();
    var dependsRaw := Get(fields, Name(Dependencies));
    var depends := [];
    if dependsRaw != "" {
      depends := Depends.ParseDependsField(dependsRaw);
    }
    var autoRaw, auto := Get(fields, Name(AutoInstalled)), false;
    if autoRaw != "" {
      auto := Truthy(autoRaw);
    }
    var termuxRaw, termux := Get(fields, Name(TermuxPackage)), false;
    if termuxRaw != "" {
      termux := Truthy(termuxRaw);
    }
    pkg := InstalledPackage(
      Get(fields, Name(Package)), Get(fields, Name(Version)), Get(fields, Name(Architecture)), Get(fields, Name(Status)),
      Get(fields, Name(InstalledRoot)), Get(fields, Name(Repo)), Get(fields, Name(RepoDist)), Get(fields, Name(RepoComponent)),
      Get(fields, Name(InstallPrefix)), depends, auto, termux);
  }

  // ----- writer -----

  /** One possible line of a stanza. */
  datatype Entry = Entry(key: Key, value: string, shown: bool)

  function Filled(key: Key, value: string): Entry { Entry(key, value, value != "") }

  function Flag(key: Key, on: bool): Entry { Entry(key, if on then "yes" else "", on) }

  /** The lines of a stanza in the order they are written. */
  function Entries(p: InstalledPackage): seq<Entry> {
    [] + [Entry(Package, p.name, true)] + [Filled(Version, p.version)]
    + [Filled(Architecture, p.architecture)] + [Filled(Status, p.status)]
    + [Filled(InstalledRoot, p.installRoot)] + [Filled(Repo, p.repoUri)]
    + [Filled(RepoDist, p.repoDist)] + [Filled(RepoComponent, p.repoComponent)]
    + [Filled(InstallPrefix, p.installPrefix)] + [Flag(TermuxPackage, p.termuxPackage)]
    + [Entry(Dependencies, Depends.Joined(p.depends), p.depends != [])] + [Flag(AutoInstalled, p.autoInstalled)]
  }

  function EntryLine(e: Entry): string { Name(e.key) + ": " + e.value }

  function EntryLines(es: seq<Entry>): seq<string> {
    if es == [] then []
    else
      var last := es[|es| - 1];
      EntryLines(es[..|es| - 1]) + if last.shown then [EntryLine(last)] else []
  }

  lemma EntryPush(es: seq<Entry>, e: Entry)
    ensures Unlines(EntryLines(es + [e])) == Unlines(EntryLines(es)) + if e.shown then Name(e.key) + ": " + e.value + "\n" else ""
  {
    assert (es + [e])[..|es|] == es;
    UnlinesConcat(EntryLines(es), if e.shown then [EntryLine(e)] else []);
    assert Unlines([EntryLine(e)]) == EntryLine(e) + "\n" + Unlines([]);
  }

  /** The lines of the file: a blank line after each stanza and another between stanzas. */
  function DbLines(db: InstalledDb, order: seq<string>): seq<string>
    requires forall n :: n in order ==> n in db
  {
    if order == [] then []
    else
      var before := order[..|order| - 1];
      DbLines(db, before) + (if before == [] then [] else [""]) + EntryLines(Entries(db[order[|order| - 1]])) + [""]
  }

  ghost predicate Enumerates(order: seq<string>, db: InstalledDb) {
    && (forall n :: n in order <==> n in db)
    && (forall i, j :: 0 <= i < j < |order| ==> order[i] != order[j])
  }

  lemma DbPush(db: InstalledDb, order: seq<string>, n: string)
    requires n in db && forall m :: m in order ==> m in db
    ensures Unlines(DbLines(db, order + [n])) ==
            Unlines(DbLines(db, order)) + (if order == [] then "" else "\n") + Unlines(EntryLines(Entries(db[n]))) + "\n"
  {
    hide Unlines, EntryLines, Entries;
    assert (order + [n])[..|order|] == order;
    var gap, lines := if order == [] then [] else [""], EntryLines(Entries(db[n]));
    UnlinesBlank();
    UnlinesConcat(DbLines(db, order), gap);
    UnlinesConcat(DbLines(db, order) + gap, lines);
    UnlinesConcat(DbLines(db, order) + gap + lines, [""]);
  }

  lemma UnlinesBlank()
    ensures Unlines([""]) == "\n" && Unlines([]) == ""
  {
    assert Unlines([""][1..]) == "";
  }

  method WriteStatusFile(db: InstalledDb) returns (out: string, ghost order: seq<string>)
    ensures Enumerates(order, db) && out == Unlines(DbLines(db, order))
  {
    hide Unlines, EntryLines, Entries;
    UnlinesBlank();
    out, order := "", [];
    var first := true;
    var rest := db.Keys;
    while rest != {}
      invariant rest <= db.Keys && first == (order == [])
      invariant forall n :: n in order <==> n in db && n !in rest
      invariant forall i, j :: 0 <= i < j < |order| ==> order[i] != order[j]
      invariant out == Unlines(DbLines(db, order))
    {
      hide DbLines;
      var n :| n in rest;
      rest := rest - {n};
      DbPush(db, order, n);
      if !first {
        out := out + "\n";
      }
      first := false;
      var stanza := WriteStanza(db[n]);
      out := out + stanza;
      out := out + "\n";
      order := order + [n];
    }
  }

  /** Appends one optional line; `es` are the entries written so far. */
  method WriteEntry(text: string, ghost es: seq<Entry>, e: Entry) returns (out: string, ghost written: seq<Entry>)
    requires text == Unlines(EntryLines(es))
    ensures written == es + [e] && out == Unlines(EntryLines(written))
  {
    hide Unlines, EntryLines;
    EntryPush(es, e);
    out, written := text, es + [e];
    if e.shown {
      out := out + (Name(e.key) + ": " + e.value + "\n");
    }
  }

  lemma NoEntries()
    ensures Unlines(EntryLines([])) == ""
  {
  }

  method WriteStanza(p: InstalledPackage) returns (out: string)
    ensures out == Unlines(EntryLines(Entries(p)))
  {
    hide Unlines, EntryLines, Depends.Joined;
    NoEntries();
    ghost var es;
    out, es := WriteEntry("", [], Entry(Package, p.name, true));
    out, es := WriteEntry(out, es, Filled(Version, p.version));
    out, es := WriteEntry(out, es, Filled(Architecture, p.architecture));
    out, es := WriteEntry(out, es, Filled(Status, p.status));
    out, es := WriteEntry(out, es, Filled(InstalledRoot, p.installRoot));
    out, es := WriteEntry(out, es, Filled(Repo, p.repoUri));
    out, es := WriteEntry(out, es, Filled(RepoDist, p.repoDist));
    out, es := WriteEntry(out, es, Filled(RepoComponent, p.repoComponent));
    out, es := WriteEntry(out, es, Filled(InstallPrefix, p.installPrefix));
    out, es := WriteEntry(out, es, Flag(TermuxPackage, p.termuxPackage));
    var depends := JoinDepends(p.depends);
    out, es := WriteEntry(out, es, Entry(Dependencies, depends, p.depends != []));
    out, es := WriteEntry(out, es, Flag(AutoInstalled, p.autoInstalled));
  }

  function Remaining(ds: seq<string>, i: nat): string
    requires i <= |ds|
  {
    if i == |ds| then "" else (if i > 0 then ", " else "") + Depends.Joined(ds[i..])
  }

  lemma RemainingNext(ds: seq<string>, i: nat)
    requires i < |ds|
    ensures Remaining(ds, i) == (if i > 0 then ", " else "") + (ds[i] + Remaining(ds, i + 1))
  {
    if i + 1 == |ds| {
      assert ds[i] + "" == ds[i];
    } else {
      assert ds[i..][1..] == ds[i + 1..];
      ConcatAssoc(ds[i], ", ", Depends.Joined(ds[i + 1..]));
    }
  }

  lemma RemainingEnds(ds: seq<string>)
    ensures "" + Remaining(ds, 0) == Depends.Joined(ds)
  {
    assert ds[0..] == ds;
  }

  method JoinDepends(ds: seq<string>) returns (out: string)
    ensures out == Depends.Joined(ds)
  {
    out := "";
    RemainingEnds(ds);
    for i := 0 to |ds|
      invariant out + Remaining(ds, i) == Depends.Joined(ds)
    {
      hide Depends.Joined, Remaining;
      RemainingNext(ds, i);
      ConcatAssoc(out, if i > 0 then ", " else "", ds[i] + Remaining(ds, i + 1));
      out := if i > 0 then out + ", " else out;
      ConcatAssoc(out, ds[i], Remaining(ds, i + 1));
      out := out + ds[i];
    }
  }

  // ----- the layout of a stanza -----

  /** A line that is left out when there is nothing to say. */
  function Line(key: string, value: string): string {
    if value == "" then "" else key + ": " + value + "\n"
  }

  function Head(p: InstalledPackage): string {
    "Package: " + p.name + "\n" + Line("Version", p.version) + Line("Architecture", p.architecture)
    + Line("Status", p.status) + Line("Installed-Root", p.installRoot)
  }

  function Tail(p: InstalledPackage): string {
    Line("Repo", p.repoUri) + Line("Repo-Dist", p.repoDist) + Line("Repo-Component", p.repoComponent)
    + Line("Install-Prefix", p.installPrefix) + Line("Termux-Package", if p.termuxPackage then "yes" else "")
    + (if p.depends == [] then "" else "Depends: " + Depends.Joined(p.depends) + "\n")
    + Line("Auto-Installed", if p.autoInstalled then "yes" else "")
  }

  lemma Labels()
    ensures Name(Package) + ": " == "Package: " && Name(Version) == "Version" && Name(Architecture) == "Architecture"
    ensures Name(Status) == "Status" && Name(InstalledRoot) == "Installed-Root" && Name(Repo) == "Repo"
    ensures Name(RepoDist) == "Repo-Dist" && Name(RepoComponent) == "Repo-Component" && Name(InstallPrefix) == "Install-Prefix"
    ensures Name(TermuxPackage) == "Termux-Package" && Name(Dependencies) + ": " == "Depends: "
    ensures Name(AutoInstalled) == "Auto-Installed" && ("yes" != "")
  {
  }

  lemma FilledPush(es: seq<Entry>, key: Key, value: string)
    ensures Unlines(EntryLines(es + [Filled(key, value)])) == Unlines(EntryLines(es)) + Line(Name(key), value)
  {
    hide Unlines, EntryLines, Name;
    EntryPush(es, Filled(key, value));
  }

  lemma FlagPush(es: seq<Entry>, key: Key, on: bool)
    ensures Unlines(EntryLines(es + [Flag(key, on)])) == Unlines(EntryLines(es)) + Line(Name(key), if on then "yes" else "")
  {
    hide Unlines, EntryLines, Name;
    EntryPush(es, Flag(key, on));
  }

  lemma HeadPrints(p: InstalledPackage) returns (es: seq<Entry>)
    ensures es == [] + [Entry(Package, p.name, true)] + [Filled(Version, p.version)]
                  + [Filled(Architecture, p.architecture)] + [Filled(Status, p.status)] + [Filled(InstalledRoot, p.installRoot)]
    ensures Unlines(EntryLines(es)) == Head(p)
  {
    hide Unlines, EntryLines, Name, Filled;
    Labels();
    NoEntries();
    es := [] + [Entry(Package, p.name, true)];
    EntryPush([], Entry(Package, p.name, true));
    hide Line;
    FilledPush(es, Version, p.version);
    es := es + [Filled(Version, p.version)];
    FilledPush(es, Architecture, p.architecture);
    es := es + [Filled(Architecture, p.architecture)];
    FilledPush(es, Status, p.status);
    es := es + [Filled(Status, p.status)];
    FilledPush(es, InstalledRoot, p.installRoot);
    es := es + [Filled(InstalledRoot, p.installRoot)];
  }

  /** A stanza as text: the keys, their order, and what is left out. */
  lemma StanzaLayout(p: InstalledPackage)
    ensures Unlines(EntryLines(Entries(p))) == Head(p) + Tail(p)
  {
    hide Unlines, EntryLines, Name, Filled, Flag, Line, Head, Depends.Joined;
    Labels();
    var es := HeadPrints(p);
    FilledPush(es, Repo, p.repoUri);
    es := es + [Filled(Repo, p.repoUri)];
    FilledPush(es, RepoDist, p.repoDist);
    es := es + [Filled(RepoDist, p.repoDist)];
    FilledPush(es, RepoComponent, p.repoComponent);
    es := es + [Filled(RepoComponent, p.repoComponent)];
    FilledPush(es, InstallPrefix, p.installPrefix);
    es := es + [Filled(InstallPrefix, p.installPrefix)];
    FlagPush(es, TermuxPackage, p.termuxPackage);
    es := es + [Flag(TermuxPackage, p.termuxPackage)];
    EntryPush(es, Entry(Dependencies, Depends.Joined(p.depends), p.depends != []));
    es := es + [Entry(Dependencies, Depends.Joined(p.depends), p.depends != [])];
    FlagPush(es, AutoInstalled, p.autoInstalled);
  }

  // ----- round trip -----

  /** A value that fits on one line and has no space at either end. */
  predicate PlainValue(v: string) { '\n' !in v && Trim(v) == v }

  predicate PlainKey(k: string) { k != "" && ':' !in k && '\n' !in k && Trim(k) == k }

  ghost predicate PlainValues(es: seq<Entry>) {
    forall i :: 0 <= i < |es| ==> PlainValue(es[i].value)
  }

  ghost predicate Plain(es: seq<Entry>) {
    && PlainValues(es)
    && (forall i :: 0 <= i < |es| ==> (!es[i].shown ==> es[i].value == ""))
    && (forall i, j :: 0 <= i < j < |es| ==> es[i].key != es[j].key)
  }

  function Rank(k: Key): nat {
    match k
    case Package => 0 case Version => 1 case Architecture => 2 case Status => 3
    case InstalledRoot => 4 case Repo => 5 case RepoDist => 6 case RepoComponent => 7
    case InstallPrefix => 8 case TermuxPackage => 9 case Dependencies => 10 case AutoInstalled => 11
  }

  ghost predicate PlainBelow(es: seq<Entry>, rank: nat) {
    Plain(es) && forall i :: 0 <= i < |es| ==> Rank(es[i].key) < rank
  }

  lemma NothingIsPlain()
    ensures PlainBelow([], 0)
  {
  }

  lemma PushPlain(es: seq<Entry>, e: Entry) returns (more: seq<Entry>)
    requires PlainBelow(es, Rank(e.key)) && PlainValue(e.value) && (!e.shown ==> e.value == "")
    ensures more == es + [e] && PlainBelow(more, Rank(e.key) + 1)
  {
    hide PlainValue, Rank;
    more := es + [e];
  }

  function FieldsOf(es: seq<Entry>): Fields {
    if es == [] then map[]
    else
      var last := es[|es| - 1];
      if last.shown then FieldsOf(es[..|es| - 1])[Name(last.key) := last.value] else FieldsOf(es[..|es| - 1])
  }

  lemma ColonLine(k: string, v: string)
    requires PlainKey(k) && PlainValue(v)
    ensures var l := k + ": " + v;
            && l != "" && l[0] != ' ' && l[0] != '\t' && '\n' !in l && DropCr(l) == l
            && Find(l, ':') == Some(|k|) && l[..|k|] == k && l[|k| + 1..] == " " + v
  {
    hide Find, Trim;
    var l := k + ": " + v;
    assert l == k + [':'] + (" " + v);
    FindFirst(k, ':', " " + v);
    TrimIdIff(k);
    TrimIdIff(v);
    assert v != "" ==> l[|l| - 1] == v[|v| - 1];
    assert v == "" ==> l[|l| - 1] == ' ';
  }

  lemma EntryIsRead(r: Reader, e: Entry)
    requires PlainValue(e.value)
    ensures r.Next(EntryLine(e)) == Reader(r.stanzas, r.fields[Name(e.key) := e.value], Name(e.key))
  {
    hide Find, Trim, DropCr, Name;
    NameIsPlain(e.key);
    ColonLine(Name(e.key), e.value);
    TrimLead(e.value);
  }

  lemma OneLineSurvivesIff(r: Reader, e: Entry)
    requires '\n' !in e.value
    ensures var now := r.Next(EntryLine(e)).fields;
            Name(e.key) in now && (now[Name(e.key)] == e.value <==> Trim(e.value) == e.value)
  {
    hide Trim, Name, PlainKey;
    var k := Name(e.key);
    NameIsPlain(e.key);
    TrimIdIff(e.value);
    if Trim(e.value) == e.value {
      EntryIsRead(r, e);
    } else {
      var line := DropCr(EntryLine(e));
      KeyOfLine(k, e.value);
      assert r.Next(EntryLine(e)) == Reader(r.stanzas, r.fields[k := Trim(line[|k| + 1..])], k);
    }
  }

  lemma KeyOfLine(k: string, v: string)
    requires PlainKey(k)
    ensures var line := DropCr(k + ": " + v);
            && |k| < |line| && line[0] != ' ' && line[0] != '\t'
            && Find(line, ':') == Some(|k|) && line[..|k|] == k && Trim(k) == k && k != ""
  {
    hide Trim, Find;
    var line := DropCr(k + ": " + v);
    FindFirst(k, ':', line[|k| + 1..]);
    assert line == k + [':'] + line[|k| + 1..];
    TrimIdIff(k);
  }

  lemma {:induction false} StanzaIsRead(ss: seq<Fields>, es: seq<Entry>)
    requires PlainValues(es)
    ensures var r := Read(Reader(ss, map[], ""), EntryLines(es));
            r.stanzas == ss && r.fields == FieldsOf(es)
  {
    hide PlainValue, EntryLine, Name;
    if es != [] {
      var before, last := es[..|es| - 1], es[|es| - 1];
      StanzaIsRead(ss, before);
      var r := Read(Reader(ss, map[], ""), EntryLines(before));
      if last.shown {
        EntryIsRead(r, last);
        ReadPush(Reader(ss, map[], ""), EntryLines(before), EntryLine(last));
      } else {
        assert EntryLines(es) == EntryLines(before);
      }
    }
  }

  lemma ReadPush(r: Reader, ls: seq<string>, l: string)
    ensures Read(r, ls + [l]) == Read(r, ls).Next(l)
  {
    assert (ls + [l])[..|ls|] == ls;
  }

  lemma {:induction false} GetEntry(es: seq<Entry>, i: nat)
    requires Plain(es) && i < |es|
    ensures Get(FieldsOf(es), Name(es[i].key)) == es[i].value
  {
    hide PlainValue, Name;
    var before, last := es[..|es| - 1], es[|es| - 1];
    if i < |before| {
      NameInjective(es[i].key, last.key);
      GetEntry(before, i);
    } else {
      NotAField(before, last.key);
    }
  }

  lemma {:induction false} NotAField(es: seq<Entry>, k: Key)
    requires forall i :: 0 <= i < |es| && es[i].shown ==> es[i].key != k
    ensures Name(k) !in FieldsOf(es)
  {
    hide Name;
    if es != [] {
      NotAField(es[..|es| - 1], k);
      NameInjective(es[|es| - 1].key, k);
    }
  }

  /** Packages whose stanza is read back as written. */
  ghost predicate WellFormed(p: InstalledPackage) {
    && p.name != "" && PlainValue(p.name) && PlainValue(p.version) && PlainValue(p.architecture)
    && PlainValue(p.status) && PlainValue(p.installRoot) && PlainValue(p.repoUri) && PlainValue(p.repoDist)
    && PlainValue(p.repoComponent) && PlainValue(p.installPrefix)
    && forall d :: d in p.depends ==> Depends.CleanName(d)
  }

  /** Recovers a field name from its length, first and eighth character. */
  function KeyOf(s: string): Key {
    if |s| == 4 then Repo
    else if |s| == 6 then Status
    else if |s| == 9 then RepoDist
    else if |s| == 12 then Architecture
    else if |s| == 7 then if s[0] == 'P' then Package else if s[0] == 'V' then Version else Dependencies
    else if |s| < 8 || s[0] == 'A' then AutoInstalled
    else if s[0] == 'T' then TermuxPackage
    else if s[0] == 'R' then RepoComponent
    else if s[7] == 'e' then InstalledRoot
    else InstallPrefix
  }

  lemma NameInjective(a: Key, b: Key)
    ensures Name(a) == Name(b) ==> a == b
  {
    NameCoded(a);
    NameCoded(b);
  }

  lemma NameCoded(k: Key)
    ensures KeyOf(Name(k)) == k
  {
  }

  predicate NameLetter(c: char) { 'A' <= c <= 'Z' || 'a' <= c <= 'z' || c == '-' }

  lemma LettersArePlain(k: string)
    requires k != "" && forall i :: 0 <= i < |k| ==> NameLetter(k[i])
    ensures PlainKey(k)
  {
    TrimIdIff(k);
  }

  lemma NameIsPlain(k: Key)
    ensures PlainKey(Name(k))
  {
    hide PlainKey;
    LettersArePlain(Name(k));
  }

  lemma {:induction false} JoinedChars(ds: seq<string>)
    requires ds != [] && forall d :: d in ds ==> Depends.CleanName(d)
    ensures var j := Depends.Joined(ds);
            '\n' !in j && j != "" && !IsSpace(j[0]) && !IsSpace(j[|j| - 1])
  {
    var d := ds[0];
    assert d in ds && d[0] in d && d[|d| - 1] in d && !Depends.NameChar('\n');
    if |ds| > 1 {
      assert forall x :: x in ds[1..] ==> x in ds;
      JoinedChars(ds[1..]);
      var rest := Depends.Joined(ds[1..]);
      var j := d + ", " + rest;
      assert j[|j| - 1] == rest[|rest| - 1] && j[0] == d[0];
    }
  }

  lemma DependsFitOneLine(ds: seq<string>)
    requires forall d :: d in ds ==> Depends.CleanName(d)
    ensures PlainValue(Depends.Joined(ds)) && (ds != [] <==> Depends.Joined(ds) != "")
  {
    hide Depends.CleanName, Trim;
    TrimIdIff(Depends.Joined(ds));
    if ds != [] {
      JoinedChars(ds);
    }
  }

  lemma FlagsArePlain()
    ensures PlainValue("yes") && PlainValue("") && Truthy("yes") && !Truthy("")
  {
    hide Trim;
    TrimIdIff("yes");
    TrimIdIff("");
    assert ToLower("yes") == "yes";
  }

  lemma EntriesArePlain(p: InstalledPackage)
    requires WellFormed(p)
    ensures Plain(Entries(p))
  {
    hide Depends.Joined, Depends.CleanName, PlainValue, Plain, PlainBelow;
    NothingIsPlain();
    var es := PushPlain([], Entry(Package, p.name, true));
    es := PushPlain(es, Filled(Version, p.version));
    es := PushPlain(es, Filled(Architecture, p.architecture));
    es := PushPlain(es, Filled(Status, p.status));
    es := PushPlain(es, Filled(InstalledRoot, p.installRoot));
    es := PushPlain(es, Filled(Repo, p.repoUri));
    es := PushPlain(es, Filled(RepoDist, p.repoDist));
    es := PushPlain(es, Filled(RepoComponent, p.repoComponent));
    es := PushPlain(es, Filled(InstallPrefix, p.installPrefix));
    LastEntriesPlain(p, es);
  }

  lemma LastEntriesPlain(p: InstalledPackage, es: seq<Entry>)
    requires WellFormed(p) && PlainBelow(es, 9)
    ensures Plain(es + [Flag(TermuxPackage, p.termuxPackage)]
                  + [Entry(Dependencies, Depends.Joined(p.depends), p.depends != [])] + [Flag(AutoInstalled, p.autoInstalled)])
  {
    hide Depends.Joined, Depends.CleanName, PlainValue, Plain, PlainBelow;
    DependsFitOneLine(p.depends);
    FlagsArePlain();
    var more := PushPlain(es, Flag(TermuxPackage, p.termuxPackage));
    more := PushPlain(more, Entry(Dependencies, Depends.Joined(p.depends), p.depends != []));
    more := PushPlain(more, Flag(AutoInstalled, p.autoInstalled));
    BelowIsPlain(more, 12);
  }

  lemma BelowIsPlain(es: seq<Entry>, rank: nat)
    requires PlainBelow(es, rank)
    ensures Plain(es)
  {
  }

  lemma EveryEntry(es: seq<Entry>)
    requires Plain(es)
    ensures forall e :: e in es ==> Get(FieldsOf(es), Name(e.key)) == e.value
  {
    hide Plain, Get, FieldsOf, Name;
    forall e | e in es
      ensures Get(FieldsOf(es), Name(e.key)) == e.value
    {
      var i: nat :| i < |es| && es[i] == e;
      GetEntry(es, i);
    }
  }

  lemma EntriesListed(p: InstalledPackage)
    ensures var es := Entries(p);
            && Entry(Package, p.name, true) in es && Filled(Version, p.version) in es
            && Filled(Architecture, p.architecture) in es && Filled(Status, p.status) in es
            && Filled(InstalledRoot, p.installRoot) in es && Filled(Repo, p.repoUri) in es
            && Filled(RepoDist, p.repoDist) in es && Filled(RepoComponent, p.repoComponent) in es
            && Filled(InstallPrefix, p.installPrefix) in es && Flag(TermuxPackage, p.termuxPackage) in es
            && Entry(Dependencies, Depends.Joined(p.depends), p.depends != []) in es
            && Flag(AutoInstalled, p.autoInstalled) in es
  {
    hide Depends.Joined;
  }

  /** Reading back the fields of a well-formed package yields that package. */
  lemma PackageReadsBack(p: InstalledPackage)
    requires WellFormed(p)
    ensures PackageOf(FieldsOf(Entries(p))) == p
  {
    hide Depends.Joined, Depends.Parsed, Depends.CleanName, PlainValue, Plain, Name, Truthy, Get, FieldsOf, Entries;
    EntriesArePlain(p);
    EntriesListed(p);
    FlagsArePlain();
    Depends.ParsedJoined(p.depends);
    EveryEntry(Entries(p));
  }

  /** The stanzas a written database holds. */
  function StanzasOf(db: InstalledDb, order: seq<string>): seq<Fields>
    requires forall n :: n in order ==> n in db
  {
    if order == [] then []
    else StanzasOf(db, order[..|order| - 1]) + [FieldsOf(Entries(db[order[|order| - 1]]))]
  }

  ghost predicate Storable(db: InstalledDb) {
    forall n :: n in db ==> WellFormed(db[n]) && db[n].name == n
  }

  lemma ValuesArePlain(es: seq<Entry>)
    requires Plain(es)
    ensures PlainValues(es)
  {
  }

  lemma StanzaOpens(ss: seq<Fields>, p: InstalledPackage)
    requires WellFormed(p)
    ensures Read(Reader(ss, map[], ""), EntryLines(Entries(p)) + [""]) == Reader(ss + [FieldsOf(Entries(p))], map[], "")
  {
    hide Entries, Plain, WellFormed, EntryLines;
    EntriesArePlain(p);
    ValuesArePlain(Entries(p));
    StanzaIsRead(ss, Entries(p));
    ReadPush(Reader(ss, map[], ""), EntryLines(Entries(p)), "");
    HasPackage(p);
  }

  lemma HasPackage(p: InstalledPackage)
    requires WellFormed(p)
    ensures FieldsOf(Entries(p)) != map[]
  {
    hide Entries, Plain, FieldsOf, Name;
    EntriesArePlain(p);
    EntriesListed(p);
    EveryEntry(Entries(p));
  }

  lemma {:induction false} DbIsRead(db: InstalledDb, order: seq<string>)
    requires Storable(db) && forall n :: n in order ==> n in db
    ensures Read(Start(), DbLines(db, order)) == Reader(StanzasOf(db, order), map[], "")
  {
    hide Read, Entries, WellFormed, EntryLines, FieldsOf;
    ReadEnds(Start(), []);
    if order != [] {
      var before, p := order[..|order| - 1], db[order[|order| - 1]];
      DbIsRead(db, before);
      var gap, lines := if before == [] then [] else [""], EntryLines(Entries(p));
      GapIsSkipped(DbLines(db, before), StanzasOf(db, before), gap);
      StanzaOpens(StanzasOf(db, before), p);
      ConcatAssoc(DbLines(db, before) + gap, lines, [""]);
      ReadConcat(Start(), DbLines(db, before) + gap, lines + [""]);
    }
  }

  lemma GapIsSkipped(ls: seq<string>, ss: seq<Fields>, gap: seq<string>)
    requires Read(Start(), ls) == Reader(ss, map[], "") && (gap == [] || gap == [""])
    ensures Read(Start(), ls + gap) == Reader(ss, map[], "")
  {
    hide Read;
    if gap == [] {
      assert ls + gap == ls;
    } else {
      ReadPush(Start(), ls, "");
    }
  }

  lemma {:induction false} LoadedStanzas(db: InstalledDb, order: seq<string>)
    requires Storable(db) && forall n :: n in order ==> n in db
    ensures Loaded(StanzasOf(db, order)) == map n | n in order :: db[n]
  {
    hide Entries, WellFormed, FieldsOf, PackageOf;
    if order != [] {
      var before, last := order[..|order| - 1], order[|order| - 1];
      LoadedStanzas(db, before);
      PackageReadsBack(db[last]);
      NamedPackage(db[last]);
      var ss, stanza := StanzasOf(db, before), FieldsOf(Entries(db[last]));
      LoadedNext(ss + [stanza], |ss|);
      assert (ss + [stanza])[..|ss|] == ss && (ss + [stanza])[..|ss| + 1] == ss + [stanza];
      assert forall n :: n in order <==> n in before || n == last;
    }
  }

  lemma NamedPackage(p: InstalledPackage)
    requires WellFormed(p)
    ensures p.name != ""
  {
  }

  lemma {:induction false} EntryLinesAreSingle(es: seq<Entry>)
    requires Plain(es)
    ensures SingleLines(EntryLines(es))
  {
    hide PlainValue, Name, EntryLine;
    if es != [] {
      var last := es[|es| - 1];
      EntryLinesAreSingle(es[..|es| - 1]);
      EntryIsOneLine(last);
    }
  }

  lemma EntryIsOneLine(e: Entry)
    requires PlainValue(e.value)
    ensures '\n' !in EntryLine(e)
  {
    hide Name;
    NameIsPlain(e.key);
    ColonLine(Name(e.key), e.value);
  }

  lemma {:induction false} DbLinesAreSingle(db: InstalledDb, order: seq<string>)
    requires Storable(db) && forall n :: n in order ==> n in db
    ensures SingleLines(DbLines(db, order))
  {
    hide Entries, WellFormed, EntryLines, Plain;
    if order != [] {
      var p := db[order[|order| - 1]];
      DbLinesAreSingle(db, order[..|order| - 1]);
      EntriesArePlain(p);
      EntryLinesAreSingle(Entries(p));
    }
  }

  /** Loading what was written yields the same database, whatever order the hash map
      enumerates it in. */
  lemma LoadOfWritten(db: InstalledDb, order: seq<string>)
    requires Storable(db) && Enumerates(order, db)
    ensures Meaning(Unlines(DbLines(db, order))) == db
  {
    hide Storable, DbLines, StanzasOf, Loaded, Lines, Unlines, Read;
    DbLinesAreSingle(db, order);
    LinesOfUnlines(DbLines(db, order), "");
    NoLines();
    assert Unlines(DbLines(db, order)) + "" == Unlines(DbLines(db, order));
    assert DbLines(db, order) + [] == DbLines(db, order);
    DbIsRead(db, order);
    LoadedStanzas(db, order);
    assert (map n | n in order :: db[n]) == db;
  }

  lemma NoLines()
    ensures Lines("") == []
  {
  }

  /** The database survives being saved and loaded by the running program. */
  method SaveAndLoad(db: InstalledDb) returns (again: InstalledDb)
    requires Storable(db)
    ensures again == db
  {
    var text, order := WriteStatusFile(db);
    var ok;
    ok, again := LoadStatusFile(Content(text));
    LoadOfWritten(db, order);
  }
}
