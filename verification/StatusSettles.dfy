/** Status files whose fields do not all fit on one line: continuation lines make multi-line
    values, which are written as they are and read back as other lines. One save settles the
    file: whatever was loaded, what is read back after a save survives every later save. */
module StatusSettles {
  import opened Wrappers
  import opened Text
  import opened StatusDb
  import opened StatusFile
  import Depends

  predicate IsBlank(c: char) { c == ' ' || c == '\t' }

  /** No line after the first starts with a blank, so none is a continuation line. */
  ghost predicate Tame(v: string) {
    forall i :: 0 <= i < |v| - 1 && v[i] == '\n' ==> !IsBlank(v[i + 1])
  }

  lemma OneLineIsTame(v: string)
    requires '\n' !in v
    ensures Tame(v)
  {
    assert forall i :: 0 <= i < |v| ==> v[i] in v;
  }

  lemma TameConcat(a: string, b: string)
    requires Tame(a) && Tame(b) && (a != "" && b != "" && a[|a| - 1] == '\n' ==> !IsBlank(b[0]))
    ensures Tame(a + b)
  {
    var s := a + b;
    forall i | 0 <= i < |s| - 1 && s[i] == '\n'
      ensures !IsBlank(s[i + 1])
    {
      if i < |a| - 1 {
        assert s[i] == a[i] && s[i + 1] == a[i + 1];
      } else if i == |a| - 1 {
        assert s[i] == a[i] && s[i + 1] == b[0];
      } else {
        assert s[i] == b[i - |a|] && s[i + 1] == b[i - |a| + 1];
      }
    }
  }

  lemma TrimmedIsTame(l: string)
    requires '\n' !in l
    ensures var t := Trim(l); '\n' !in t && Tame(t) && PlainValue(t) && (t != "" ==> !IsBlank(t[0]))
  {
    hide Trim;
    TrimChars(l);
    TrimIdIff(Trim(l));
    OneLineIsTame(Trim(l));
    TrimTwice(l);
  }

  lemma TrimTwice(l: string)
    ensures Trim(Trim(l)) == Trim(l)
  {
    hide LTrim, RTrim;
    TrimIdIff(Trim(l));
  }

  lemma CrDropped(l: string)
    ensures '\n' !in l ==> '\n' !in DropCr(l)
    ensures DropCr(l) != "" ==> l != "" && DropCr(l)[0] == l[0]
  {
  }

  // ----- what the parser can produce -----

  ghost predicate TameFields(f: Fields) { forall k :: k in f ==> Tame(f[k]) }

  ghost predicate TameReader(r: Reader) {
    TameFields(r.fields) && forall i :: 0 <= i < |r.stanzas| ==> TameFields(r.stanzas[i])
  }

  lemma PieceIsOneLine(line: string, k: nat)
    requires '\n' !in line && k < |line|
    ensures '\n' !in line[..k] && '\n' !in line[k + 1..]
  {
  }

  lemma NextIsTame(r: Reader, raw: string)
    requires TameReader(r) && '\n' !in raw
    ensures TameReader(r.Next(raw))
  {
    hide Trim, Find, DropCr, Tame;
    CrDropped(raw);
    var line := DropCr(raw);
    TrimmedIsTame(line);
    if line != "" && IsBlank(line[0]) {
      if r.currentKey in r.fields {
        AppendIsTame(r.fields[r.currentKey], Trim(line));
      }
    } else if Find(line, ':').Some? {
      PieceIsOneLine(line, Find(line, ':').value);
      TrimmedIsTame(line[Find(line, ':').value + 1..]);
    }
  }

  lemma AppendIsTame(v: string, t: string)
    requires Tame(v) && Tame(t) && (t != "" ==> !IsBlank(t[0]))
    ensures Tame(v + "\n" + t)
  {
    OneLineIsTame("");
    TameConcat(v, "\n");
    TameConcat(v + "\n", t);
  }

  lemma {:induction false} ReadIsTame(ls: seq<string>)
    requires SingleLines(ls)
    ensures TameReader(Read(Start(), ls))
  {
    hide Reader.Next, TameReader;
    if ls == [] {
      NothingIsTame();
    } else {
      assert forall l :: l in ls[..|ls| - 1] ==> l in ls;
      ReadIsTame(ls[..|ls| - 1]);
      assert ls[|ls| - 1] in ls;
      NextIsTame(Read(Start(), ls[..|ls| - 1]), ls[|ls| - 1]);
    }
  }

  lemma NothingIsTame()
    ensures TameReader(Start()) && PlainReader(Start())
  {
  }

  lemma FlushIsTame(r: Reader)
    ensures TameReader(r) ==> TameReader(r.Flushed())
    ensures PlainReader(r) ==> PlainReader(r.Flushed())
  {
    hide TameFields, PlainFields;
    NoFields();
  }

  lemma NoFields()
    ensures TameFields(map[]) && PlainFields(map[])
  {
  }

  /** Packages whose text holds no continuation line. */
  ghost predicate TamePackage(p: InstalledPackage) {
    && p.name != "" && Tame(p.name) && Tame(p.version) && Tame(p.architecture) && Tame(p.status)
    && Tame(p.installRoot) && Tame(p.repoUri) && Tame(p.repoDist) && Tame(p.repoComponent) && Tame(p.installPrefix)
    && forall d :: d in p.depends ==> Depends.CleanName(d)
  }

  ghost predicate TameDb(db: InstalledDb) {
    forall n :: n in db ==> TamePackage(db[n]) && db[n].name == n
  }

  lemma PackageIsTame(f: Fields)
    requires TameFields(f) && PackageOf(f).name != ""
    ensures TamePackage(PackageOf(f))
  {
    hide Tame, Depends.Parsed, Depends.CleanName, Truthy, Name;
    OneLineIsTame("");
    Depends.ParsedIsClean(Get(f, Name(Dependencies)));
  }

  lemma {:induction false} LoadedTame(ss: seq<Fields>)
    requires forall i :: 0 <= i < |ss| ==> TameFields(ss[i])
    ensures TameDb(Loaded(ss))
  {
    hide TameFields, TamePackage, PackageOf;
    if ss != [] {
      LoadedTame(ss[..|ss| - 1]);
      if PackageOf(ss[|ss| - 1]).name != "" {
        PackageIsTame(ss[|ss| - 1]);
      }
    }
  }

  lemma {:induction false} LinesAreSingle(text: string)
    ensures SingleLines(Lines(text))
  {
    SplitLacksDelim(text, '\n');
  }

  /** Whatever the file says, what is loaded from it is tame. */
  lemma LoadedIsTame(text: string)
    ensures TameDb(Meaning(text))
  {
    hide Read, Loaded, Lines, TameFields, TameDb, Reader.Flushed;
    LinesAreSingle(text);
    ReadIsTame(Lines(text));
    FlushIsTame(Read(Start(), Lines(text)));
    LoadedTame(Stanzas(Lines(text)));
  }

  // ----- what a save of a tame database reads back as -----

  /** No line starts with a blank. */
  ghost predicate Flat(ls: seq<string>) {
    forall l :: l in ls ==> l == "" || !IsBlank(l[0])
  }

  ghost predicate PlainFields(f: Fields) { forall k :: k in f ==> PlainValue(f[k]) }

  ghost predicate PlainReader(r: Reader) {
    PlainFields(r.fields) && forall i :: 0 <= i < |r.stanzas| ==> PlainFields(r.stanzas[i])
  }

  lemma NextIsPlain(r: Reader, raw: string)
    requires PlainReader(r) && '\n' !in raw && (raw == "" || !IsBlank(raw[0]))
    ensures PlainReader(r.Next(raw))
  {
    hide Trim, Find, DropCr, PlainValue;
    CrDropped(raw);
    var line := DropCr(raw);
    if line != "" && Find(line, ':').Some? {
      PieceIsOneLine(line, Find(line, ':').value);
      TrimmedIsTame(line[Find(line, ':').value + 1..]);
    }
  }

  lemma {:induction false} FlatIsPlain(ls: seq<string>)
    requires SingleLines(ls) && Flat(ls)
    ensures PlainReader(Read(Start(), ls))
  {
    hide Reader.Next, PlainReader;
    if ls == [] {
      NothingIsTame();
    } else {
      assert forall l :: l in ls[..|ls| - 1] ==> l in ls;
      FlatIsPlain(ls[..|ls| - 1]);
      assert ls[|ls| - 1] in ls;
      NextIsPlain(Read(Start(), ls[..|ls| - 1]), ls[|ls| - 1]);
    }
  }

  lemma PackageIsWellFormed(f: Fields)
    requires PlainFields(f) && PackageOf(f).name != ""
    ensures WellFormed(PackageOf(f))
  {
    hide PlainValue, Depends.Parsed, Depends.CleanName, Truthy, Name;
    FlagsArePlain();
    Depends.ParsedIsClean(Get(f, Name(Dependencies)));
  }

  lemma {:induction false} LoadedStorable(ss: seq<Fields>)
    requires forall i :: 0 <= i < |ss| ==> PlainFields(ss[i])
    ensures Storable(Loaded(ss))
  {
    hide PlainFields, WellFormed, PackageOf;
    if ss != [] {
      LoadedStorable(ss[..|ss| - 1]);
      if PackageOf(ss[|ss| - 1]).name != "" {
        PackageIsWellFormed(ss[|ss| - 1]);
      }
    }
  }

  lemma {:induction false} TameTextIsFlat(text: string)
    requires Tame(text) && (text == "" || !IsBlank(text[0]))
    ensures Flat(Lines(text))
    decreases |text|
  {
    if text != "" {
      match Find(text, '\n')
      case None =>
      case Some(k) =>
        var rest := text[k + 1..];
        assert rest != "" ==> rest[0] == text[k + 1];
        assert forall i :: 0 <= i < |rest| ==> rest[i] == text[k + 1 + i];
        TameTextIsFlat(rest);
    }
  }

  /** Tame text that can be followed by more lines. */
  ghost predicate TameLines(text: string) {
    Tame(text) && (text != "" ==> !IsBlank(text[0]) && text[|text| - 1] == '\n')
  }

  lemma TameLinesConcat(a: string, b: string)
    requires TameLines(a) && TameLines(b)
    ensures TameLines(a + b)
  {
    TameConcat(a, b);
  }

  lemma EntryIsTame(e: Entry)
    requires Tame(e.value)
    ensures TameLines(Name(e.key) + ": " + e.value + "\n")
  {
    hide Name, Tame;
    NameIsPlain(e.key);
    var head := Name(e.key) + ": ";
    NameStarts(e.key);
    OneLineIsTame(head);
    TameConcat(head, e.value);
    OneLineIsTame("");
    NewlineIsTame();
    TameConcat(head + e.value, "\n");
  }

  lemma NameStarts(k: Key)
    ensures Name(k) != "" && !IsBlank(Name(k)[0]) && '\n' !in Name(k)
  {
    hide Name;
    NameIsPlain(k);
    TrimIdIff(Name(k));
  }

  lemma NewlineIsTame()
    ensures Tame("\n") && TameLines("\n") && TameLines("")
  {
  }

  lemma {:induction false} EntriesAreTame(es: seq<Entry>)
    requires forall i :: 0 <= i < |es| ==> Tame(es[i].value)
    ensures TameLines(Unlines(EntryLines(es)))
  {
    hide Tame, TameLines, Unlines, EntryLines, Name;
    NewlineIsTame();
    NoEntries();
    if es != [] {
      var init, last := es[..|es| - 1], es[|es| - 1];
      assert es == init + [last];
      EntriesAreTame(init);
      EntryPush(init, last);
      if last.shown {
        EntryIsTame(last);
        TameLinesConcat(Unlines(EntryLines(init)), Name(last.key) + ": " + last.value + "\n");
      }
      TameLinesConcat(Unlines(EntryLines(init)), "");
    }
  }

  lemma PackageEntriesTame(p: InstalledPackage)
    requires TamePackage(p)
    ensures TameLines(Unlines(EntryLines(Entries(p))))
  {
    hide Tame, TameLines, Unlines, EntryLines, Depends.CleanName, Depends.Joined, PlainValue;
    DependsFitOneLine(p.depends);
    PlainIsTame(Depends.Joined(p.depends));
    OneLineIsTame("yes");
    OneLineIsTame("");
    EntriesAreTame(Entries(p));
  }

  lemma PlainIsTame(v: string)
    ensures PlainValue(v) ==> Tame(v)
  {
    if PlainValue(v) {
      OneLineIsTame(v);
    }
  }

  lemma {:induction false} DbIsTame(db: InstalledDb, order: seq<string>)
    requires TameDb(db) && forall n :: n in order ==> n in db
    ensures TameLines(Unlines(DbLines(db, order)))
  {
    hide TameLines, Unlines, EntryLines, Entries, DbLines, TamePackage;
    NewlineIsTame();
    if order == [] {
      NothingPrinted(db);
    } else {
      var init, n := order[..|order| - 1], order[|order| - 1];
      assert order == init + [n];
      DbIsTame(db, init);
      DbPush(db, init, n);
      PackageEntriesTame(db[n]);
      var before, gap, stanza := Unlines(DbLines(db, init)), if init == [] then "" else "\n", Unlines(EntryLines(Entries(db[n])));
      TameLinesConcat(before, gap);
      TameLinesConcat(before + gap, stanza);
      TameLinesConcat(before + gap + stanza, "\n");
    }
  }

  lemma NothingPrinted(db: InstalledDb)
    ensures Unlines(DbLines(db, [])) == ""
  {
  }

  lemma TameLinesText(text: string)
    requires TameLines(text)
    ensures Tame(text) && (text == "" || !IsBlank(text[0]))
  {
  }

  /** One save settles the file: what a saved tame database reads back as is storable, so
      every later save of it is read back unchanged. */
  lemma SavedSettles(db: InstalledDb, order: seq<string>)
    requires TameDb(db) && forall n :: n in order ==> n in db
    ensures Storable(Meaning(Unlines(DbLines(db, order))))
  {
    hide Read, Loaded, Lines, PlainFields, TameDb, Reader.Flushed, Unlines, DbLines, TameLines, Tame;
    var text := Unlines(DbLines(db, order));
    DbIsTame(db, order);
    TameLinesText(text);
    TameTextIsFlat(text);
    LinesAreSingle(text);
    FlatIsPlain(Lines(text));
    FlushIsTame(Read(Start(), Lines(text)));
    LoadedStorable(Stanzas(Lines(text)));
  }

  /** For every database and every enumeration order: loading what was saved yields the same
      database exactly when all its fields are single lines without edge spaces and its
      entries are named and keyed consistently. */
  lemma LoadOfWrittenIff(db: InstalledDb, order: seq<string>)
    requires Enumerates(order, db)
    ensures Meaning(Unlines(DbLines(db, order))) == db <==> Storable(db)
  {
    hide Meaning, Storable, TameDb, Unlines, DbLines;
    if Storable(db) {
      LoadOfWritten(db, order);
    }
    LoadedIsTame(Unlines(DbLines(db, order)));
    if TameDb(db) {
      SavedSettles(db, order);
    }
  }

  // ----- one field -----

  /** What is stored under k, if anything, is tame, or a single line. */
  ghost predicate TameAt(f: Fields, k: string) { k in f ==> Tame(f[k]) }

  ghost predicate LineAt(f: Fields, k: string) { k in f ==> '\n' !in f[k] }

  lemma NextKeeps(r: Reader, raw: string, k: string)
    requires '\n' !in raw
    ensures TameAt(r.fields, k) ==> TameAt(r.Next(raw).fields, k)
    ensures LineAt(r.fields, k) && (raw == "" || !IsBlank(raw[0])) ==> LineAt(r.Next(raw).fields, k)
  {
    hide Trim, Find, DropCr, Tame;
    CrDropped(raw);
    var line := DropCr(raw);
    TrimmedIsTame(line);
    if line != "" && IsBlank(line[0]) {
      if r.currentKey in r.fields && TameAt(r.fields, r.currentKey) {
        AppendIsTame(r.fields[r.currentKey], Trim(line));
      }
    } else if Find(line, ':').Some? {
      PieceIsOneLine(line, Find(line, ':').value);
      TrimmedIsTame(line[Find(line, ':').value + 1..]);
    }
  }

  lemma {:induction false} ReadKeeps(r: Reader, ls: seq<string>, k: string)
    requires SingleLines(ls)
    ensures TameAt(r.fields, k) ==> TameAt(Read(r, ls).fields, k)
    ensures LineAt(r.fields, k) && Flat(ls) ==> LineAt(Read(r, ls).fields, k)
  {
    hide Reader.Next, TameAt, LineAt;
    if ls != [] {
      assert forall l :: l in ls[..|ls| - 1] ==> l in ls;
      assert ls[|ls| - 1] in ls;
      ReadKeeps(r, ls[..|ls| - 1], k);
      NextKeeps(Read(r, ls[..|ls| - 1]), ls[|ls| - 1], k);
    }
  }

  lemma FirstLineStores(r: Reader, k: string, v: string)
    requires PlainKey(k) && '\n' !in v
    ensures var f := r.Next(k + ": " + v).fields; k in f && '\n' !in f[k] && Tame(f[k])
  {
    hide Trim, Find, DropCr, PlainKey, Tame;
    var line := DropCr(k + ": " + v);
    KeyOfLine(k, v);
    CrDropped(k + ": " + v);
    KeyIsOneLine(k);
    PieceIsOneLine(line, |k|);
    TrimmedIsTame(line[|k| + 1..]);
  }

  lemma KeyIsOneLine(k: string)
    requires PlainKey(k)
    ensures '\n' !in k
  {
  }

  /** A field of any value, written as the writer writes it and read from any state. */
  function ReadField(r: Reader, e: Entry): Fields { Read(r, Lines(EntryLine(e) + "\n")).fields }

  /** A value survives being written and read exactly when it is a single line without space
      at either end, whatever it is: a multi-line value never comes back. */
  lemma ValueSurvivesIff(r: Reader, e: Entry)
    ensures var f := ReadField(r, e);
            Name(e.key) in f && f[Name(e.key)] == e.value <==> PlainValue(e.value)
  {
    hide Trim, Name, PlainKey, Lines, Read, Reader.Next, Tame, Flat;
    var k, v := Name(e.key), e.value;
    NameIsPlain(e.key);
    match Find(v, '\n')
    case None =>
      KeyIsOneLine(k);
      LinesOfOne(EntryLine(e), "");
      assert EntryLine(e) + ['\n'] + "" == EntryLine(e) + "\n";
      NothingToRead();
      ReadPush(r, [], EntryLine(e));
      assert [] + [EntryLine(e)] == [EntryLine(e)] + [];
      OneLineSurvivesIff(r, e);
    case Some(j) =>
      var first, more := k + ": " + v[..j], v[j + 1..] + "\n";
      KeyIsOneLine(k);
      LinesOfOne(first, more);
      assert EntryLine(e) + "\n" == first + ['\n'] + more;
      ReadConcat(r, [first], Lines(more));
      NothingToRead();
      ReadPush(r, [], first);
      assert [] + [first] == [first];
      FirstLineStores(r, k, v[..j]);
      LinesAreSingle(more);
      ReadKeeps(r.Next(first), Lines(more), k);
      assert v[j] in v;
      if Tame(v) {
        TailIsTame(v, j);
        TameTextIsFlat(more);
      }
  }

  lemma NothingToRead()
    ensures Lines("") == [] && forall r: Reader :: Read(r, []) == r
  {
  }

  lemma TailIsTame(v: string, j: nat)
    requires Tame(v) && j < |v| && v[j] == '\n'
    ensures var t := v[j + 1..] + "\n"; Tame(t) && !IsBlank(t[0])
  {
    var rest := v[j + 1..];
    assert forall i :: 0 <= i < |rest| ==> rest[i] == v[j + 1 + i];
    NewlineIsTame();
    TameConcat(rest, "\n");
  }

  // ----- a continuation line that comes back as a field -----

  lemma {:induction false} EntryLinesConcat(a: seq<Entry>, b: seq<Entry>)
    ensures EntryLines(a + b) == EntryLines(a) + EntryLines(b)
  {
    hide EntryLine;
    if b == [] {
      assert a + b == a;
    } else {
      var init, last := b[..|b| - 1], b[|b| - 1];
      EntryLinesConcat(a, init);
      assert (a + b)[..|a + b| - 1] == a + init && (a + b)[|a + b| - 1] == last;
    }
  }

  lemma {:induction false} FieldsConcat(a: seq<Entry>, b: seq<Entry>)
    ensures FieldsOf(a + b) == FieldsOf(a) + FieldsOf(b)
  {
    hide Name;
    if b == [] {
      assert a + b == a;
    } else {
      var init, last := b[..|b| - 1], b[|b| - 1];
      FieldsConcat(a, init);
      assert (a + b)[..|a + b| - 1] == a + init && (a + b)[|a + b| - 1] == last;
    }
  }

  lemma OneEntry(e: Entry)
    ensures EntryLines([e]) == if e.shown then [EntryLine(e)] else []
    ensures FieldsOf([e]) == if e.shown then map[Name(e.key) := e.value] else map[]
  {
    hide EntryLine, Name;
    assert [e][..0] == [];
  }

  /** All entries but the first two. */
  function Others(p: InstalledPackage): seq<Entry> {
    [Filled(Architecture, p.architecture)] + [Filled(Status, p.status)]
    + [Filled(InstalledRoot, p.installRoot)] + [Filled(Repo, p.repoUri)]
    + [Filled(RepoDist, p.repoDist)] + [Filled(RepoComponent, p.repoComponent)]
    + [Filled(InstallPrefix, p.installPrefix)] + [Flag(TermuxPackage, p.termuxPackage)]
    + [Entry(Dependencies, Depends.Joined(p.depends), p.depends != [])] + [Flag(AutoInstalled, p.autoInstalled)]
  }

  lemma EntriesSplit(p: InstalledPackage)
    ensures Entries(p) == [Entry(Package, p.name, true)] + ([Filled(Version, p.version)] + Others(p))
  {
    hide Depends.Joined, Filled, Flag;
    var first, ver := [Entry(Package, p.name, true)], [Filled(Version, p.version)];
    var head := [] + first + ver;
    var s := [Filled(Architecture, p.architecture)];
    var t := head + s;
    s, t := Appended(head, s, t, Filled(Status, p.status));
    s, t := Appended(head, s, t, Filled(InstalledRoot, p.installRoot));
    s, t := Appended(head, s, t, Filled(Repo, p.repoUri));
    s, t := Appended(head, s, t, Filled(RepoDist, p.repoDist));
    s, t := Appended(head, s, t, Filled(RepoComponent, p.repoComponent));
    s, t := Appended(head, s, t, Filled(InstallPrefix, p.installPrefix));
    s, t := Appended(head, s, t, Flag(TermuxPackage, p.termuxPackage));
    s, t := Appended(head, s, t, Entry(Dependencies, Depends.Joined(p.depends), p.depends != []));
    s, t := Appended(head, s, t, Flag(AutoInstalled, p.autoInstalled));
    assert s == Others(p) && t == Entries(p);
    assert head == first + ver;
    ConcatAssoc(first, ver, s);
  }

  lemma Appended(head: seq<Entry>, s: seq<Entry>, t: seq<Entry>, e: Entry) returns (s': seq<Entry>, t': seq<Entry>)
    requires t == head + s
    ensures s' == s + [e] && t' == t + [e] && t' == head + s'
  {
    s', t' := s + [e], t + [e];
    ConcatAssoc(head, s, [e]);
  }

  lemma OthersShowNoDepends(p: InstalledPackage)
    requires p.depends == []
    ensures forall i :: 0 <= i < |Others(p)| && Others(p)[i].shown ==> Others(p)[i].key != Dependencies
  {
    hide Depends.Joined;
  }

  /** p with a line "Depends: d" hidden in its version. */
  function Hiding(p: InstalledPackage, d: string): InstalledPackage {
    p.(version := p.version + "\nDepends: " + d)
  }

  /** What its stanza is read as. */
  function Uncovered(p: InstalledPackage, d: string): seq<Entry> {
    [Entry(Package, p.name, true)]
    + ([Entry(Version, p.version, true)] + ([Entry(Dependencies, d, true)] + Others(p)))
  }

  lemma HiddenLine(p: InstalledPackage, d: string)
    ensures Unlines(EntryLines(Entries(Hiding(p, d)))) == Unlines(EntryLines(Uncovered(p, d)))
  {
    hide Unlines, EntryLines, Others, EntryLine;
    var q := Hiding(p, d);
    EntriesSplit(q);
    SameOthers(p, d);
    var first, ver, dep := Entry(Package, p.name, true), Entry(Version, p.version, true), Entry(Dependencies, d, true);
    OneEntry(first);
    OneEntry(Filled(Version, q.version));
    OneEntry(ver);
    OneEntry(dep);
    EntryLinesConcat([first], [Filled(Version, q.version)] + Others(q));
    EntryLinesConcat([Filled(Version, q.version)], Others(q));
    EntryLinesConcat([first], [ver] + ([dep] + Others(p)));
    EntryLinesConcat([ver], [dep] + Others(p));
    EntryLinesConcat([dep], Others(p));
    var rest := EntryLines(Others(p));
    UnlinesCons(EntryLine(first), [EntryLine(Filled(Version, q.version))] + rest);
    UnlinesCons(EntryLine(Filled(Version, q.version)), rest);
    UnlinesCons(EntryLine(first), [EntryLine(ver)] + ([EntryLine(dep)] + rest));
    UnlinesCons(EntryLine(ver), [EntryLine(dep)] + rest);
    UnlinesCons(EntryLine(dep), rest);
    VersionLine(p, d, Unlines(rest));
  }

  lemma VersionLine(p: InstalledPackage, d: string, rest: string)
    ensures EntryLine(Filled(Version, Hiding(p, d).version)) + "\n" + rest ==
            EntryLine(Entry(Version, p.version, true)) + "\n" + (EntryLine(Entry(Dependencies, d, true)) + "\n" + rest)
  {
    var v := "Version: " + p.version;
    assert EntryLine(Entry(Version, p.version, true)) == v;
    assert EntryLine(Filled(Version, Hiding(p, d).version)) == v + ("\nDepends: " + d);
    assert "\nDepends: " == "\n" + "Depends" + ": ";
    assert v + ("\nDepends: " + d) + "\n" + rest == v + "\n" + ("Depends" + ": " + d + "\n" + rest);
  }

  lemma SameOthers(p: InstalledPackage, d: string)
    ensures Others(Hiding(p, d)) == Others(p)
  {
  }

  lemma UnlinesCons(l: string, ls: seq<string>)
    ensures Unlines([l] + ls) == l + "\n" + Unlines(ls)
  {
    assert ([l] + ls)[1..] == ls;
  }

  lemma {:induction false} ShownLinesAreSingle(es: seq<Entry>)
    requires PlainValues(es)
    ensures SingleLines(EntryLines(es))
  {
    hide PlainValue, Name, EntryLine;
    if es != [] {
      ShownLinesAreSingle(es[..|es| - 1]);
      EntryIsOneLine(es[|es| - 1]);
    }
  }

  lemma UncoveredIsPlain(p: InstalledPackage, d: string)
    requires WellFormed(p) && Depends.CleanName(d)
    ensures PlainValues(Uncovered(p, d))
  {
    hide PlainValue, Others, WellFormed, Depends.CleanName;
    EntriesArePlain(p);
    ValuesArePlain(Entries(p));
    EntriesSplit(p);
    DependsFitOneLine([d]);
    assert Depends.Joined([d]) == d;
    var es, us := Entries(p), Uncovered(p, d);
    assert es[0].value == p.name && es[1].value == p.version;
    forall i | 0 <= i < |us|
      ensures PlainValue(us[i].value)
    {
      if i > 2 {
        assert us[i] == es[i - 1];
      }
    }
  }

  lemma UncoveredMap(p: InstalledPackage, d: string)
    requires p.version != "" && p.depends == []
    ensures FieldsOf(Uncovered(p, d)) == FieldsOf(Entries(p))[Name(Dependencies) := d]
  {
    hide Others, FieldsOf, Entries, Name;
    EntriesSplit(p);
    var first, ver, dep := Entry(Package, p.name, true), Entry(Version, p.version, true), Entry(Dependencies, d, true);
    OneEntry(first);
    OneEntry(ver);
    OneEntry(dep);
    FieldsConcat([first], [ver] + Others(p));
    FieldsConcat([ver], Others(p));
    FieldsConcat([first], [ver] + ([dep] + Others(p)));
    FieldsConcat([ver], [dep] + Others(p));
    FieldsConcat([dep], Others(p));
    OthersShowNoDepends(p);
    NotAField(Others(p), Dependencies);
    NameInjective(Package, Dependencies);
    NameInjective(Version, Dependencies);
    assert [Filled(Version, p.version)] == [ver];
    OneFieldLast(map[Name(Package) := p.name], map[Name(Version) := p.version], FieldsOf(Others(p)), Name(Dependencies), d);
  }

  lemma OneFieldLast(a: Fields, b: Fields, c: Fields, k: string, v: string)
    requires k !in a && k !in b && k !in c
    ensures a + (b + (map[k := v] + c)) == (a + (b + c))[k := v]
  {
  }

  lemma GetAfter(f: Fields, d: string, k: Key)
    ensures Get(f[Name(Dependencies) := d], Name(k)) == if k == Dependencies then d else Get(f, Name(k))
  {
    hide Name;
    NameInjective(k, Dependencies);
  }

  lemma OnlyDependsDiffer(f: Fields, d: string)
    ensures PackageOf(f[Name(Dependencies) := d]) == PackageOf(f).(depends := Depends.Parsed(d))
  {
    hide Name, Depends.Parsed, Truthy, Get;
    forall k: Key
      ensures Get(f[Name(Dependencies) := d], Name(k)) == if k == Dependencies then d else Get(f, Name(k))
    {
      GetAfter(f, d, k);
    }
  }

  lemma UncoveredFields(p: InstalledPackage, d: string)
    requires WellFormed(p) && p.version != "" && p.depends == [] && Depends.CleanName(d)
    ensures PackageOf(FieldsOf(Uncovered(p, d))) == p.(depends := [d])
    ensures FieldsOf(Uncovered(p, d)) != map[]
  {
    hide WellFormed, FieldsOf, Entries, Uncovered, PackageOf, Depends.Parsed, Depends.CleanName, Name;
    PackageReadsBack(p);
    UncoveredMap(p, d);
    OnlyDependsDiffer(FieldsOf(Entries(p)), d);
    Depends.ParsedJoined([d]);
    assert Depends.Joined([d]) == d;
    assert Name(Dependencies) in FieldsOf(Uncovered(p, d));
  }

  /** A continuation line inside the version of a package comes back as a dependency of it. */
  lemma HiddenDependency(p: InstalledPackage, d: string)
    requires WellFormed(p) && p.version != "" && p.depends == [] && Depends.CleanName(d)
    ensures Meaning(Unlines(DbLines(map[p.name := Hiding(p, d)], [p.name]))) == map[p.name := p.(depends := [d])]
  {
    hide Others, WellFormed, Depends.CleanName, FieldsOf, Entries, Uncovered, EntryLines, Unlines, Lines, Read, PackageOf;
    var es := Uncovered(p, d);
    UncoveredIsPlain(p, d);
    HiddenLine(p, d);
    StanzaIsRead([], es);
    UncoveredFields(p, d);
    ReadPush(Start(), EntryLines(es), "");
    ShownLinesAreSingle(es);
    OneStanza(p.name, Hiding(p, d));
    UnlinesConcat(EntryLines(es), [""]);
    UnlinesConcat(EntryLines(Entries(Hiding(p, d))), [""]);
    LinesOfUnlines(EntryLines(es) + [""], "");
    NothingToRead();
    assert Unlines(EntryLines(es) + [""]) + "" == Unlines(EntryLines(es) + [""]);
    assert EntryLines(es) + [""] + [] == EntryLines(es) + [""];
    OneLoaded(FieldsOf(es));
    NamedPackage(p);
  }

  lemma OneStanza(n: string, p: InstalledPackage)
    ensures DbLines(map[n := p], [n]) == EntryLines(Entries(p)) + [""]
  {
    hide EntryLines, Entries;
    assert [n][..0] == [];
    assert DbLines(map[n := p], [n][..0]) == [];
    assert [] + [] + EntryLines(Entries(p)) == EntryLines(Entries(p));
  }

  lemma OneLoaded(f: Fields)
    ensures var p := PackageOf(f); p.name != "" ==> Loaded([f]) == map[p.name := p]
  {
    hide PackageOf;
    assert [f][..0] == [];
  }
}
