/** Repository index files: the text of a Packages file and the entries read from it. The
    stanza parser is that of the status file. */
module PackageIndex {
  import opened Wrappers
  import opened Text
  import opened RepoIndex
  import opened StatusFile
  import opened InstallManager
  import Depends
  import StatusSettles

  // ----- entries -----

  /** containsCaseInsensitive. */
  predicate ContainsFold(text: string, needle: string) {
    text != "" && needle != "" && exists i :: 0 <= i <= |text| - |needle| && FoldsAt(text, needle, i)
  }

  predicate FoldsAt(text: string, needle: string, i: nat)
    requires i + |needle| <= |text|
  {
    ToLower(text[i..i + |needle|]) == ToLower(needle)
  }

  /** detectTermuxPackage. */
  predicate DetectTermux(filename: string, depends: seq<string>) {
    || ContainsFold(filename, "data/data/com.termux/files/usr")
    || exists d :: d in depends && (ContainsFold(d, "libandroid-glob") || ContainsFold(d, "libandroid-support")
                                    || ContainsFold(d, "termux-tools"))
  }

  /** One stanza; where it comes from is filled in later. */
  function EntryOf(f: Fields): PackageEntry {
    var depends := Depends.Parsed(Get(f, "Depends")) + Depends.Parsed(Get(f, "Pre-Depends"));
    PackageEntry(Get(f, "Package"), Get(f, "Version"), Get(f, "Architecture"), depends,
                 DetectTermux(Get(f, "Filename"), depends), "", "", "")
  }

  /** The entries of the stanzas that name a package. */
  function Listed(stanzas: seq<Fields>): seq<PackageEntry> {
    if stanzas == [] then []
    else
      var before, p := Listed(stanzas[..|stanzas| - 1]), EntryOf(stanzas[|stanzas| - 1]);
      if p.packageName == "" then before else before + [p]
  }

  function EntriesIn(content: string): seq<PackageEntry> { Listed(Stanzas(Lines(content))) }

  lemma ListedNext(stanzas: seq<Fields>, i: nat)
    requires i < |stanzas|
    ensures var before, p := Listed(stanzas[..i]), EntryOf(stanzas[i]);
            Listed(stanzas[..i + 1]) == if p.packageName == "" then before else before + [p]
  {
    hide EntryOf;
    assert stanzas[..i + 1][..i] == stanzas[..i];
  }

  lemma NothingListed(stanzas: seq<Fields>)
    ensures Listed(stanzas[..0]) == [] && stanzas[..|stanzas|] == stanzas
    ensures EntriesIn("") == []
  {
    hide EntryOf;
    NoLines();
  }

  method ParsePackagesString(content: string) returns (out: seq<PackageEntry>)
    ensures out == EntriesIn(content)
  {
    hide EntryOf, Listed, Stanzas, Lines;
    out := [];
    NothingListed([]);
    if content == "" {
      return;
    }
    var stanzas := ParseStanzas(content);
    NothingListed(stanzas);
    for i := 0 to |stanzas|
      invariant out == Listed(stanzas[..i])
    {
      ListedNext(stanzas, i);
      var pkg := EntryOf(stanzas[i]);
      if pkg.packageName == "" {
        continue;
      }
      out := out + [pkg];
    }
  }

  // ----- which entries survive the status file -----

  /** A value of one line has no spaces at its ends. */
  predicate Neat(v: string) { '\n' in v || Trim(v) == v }

  ghost predicate NeatFields(f: Fields) { forall k :: k in f ==> Neat(f[k]) }

  ghost predicate NeatReader(r: Reader) {
    NeatFields(r.fields) && forall i :: 0 <= i < |r.stanzas| ==> NeatFields(r.stanzas[i])
  }

  lemma NeatPieces(v: string, t: string)
    ensures Neat(Trim(v)) && Neat(v + "\n" + t)
  {
    hide Trim;
    StatusSettles.TrimTwice(v);
    assert (v + "\n" + t)[|v|] == '\n';
  }

  lemma NextIsNeat(r: Reader, raw: string)
    requires NeatReader(r)
    ensures NeatReader(r.Next(raw))
  {
    hide Trim, Find, DropCr, Neat;
    var line := DropCr(raw);
    if r.currentKey in r.fields {
      NeatPieces(r.fields[r.currentKey], Trim(line));
    }
    if Find(line, ':').Some? {
      NeatPieces(line[Find(line, ':').value + 1..], "");
    }
  }

  lemma {:induction false} ReadIsNeat(ls: seq<string>)
    ensures NeatReader(Read(Start(), ls))
  {
    hide Reader.Next, Neat;
    if ls != [] {
      ReadIsNeat(ls[..|ls| - 1]);
      NextIsNeat(Read(Start(), ls[..|ls| - 1]), ls[|ls| - 1]);
    }
  }

  lemma {:induction false} ListedFrom(stanzas: seq<Fields>, p: PackageEntry) returns (f: Fields)
    requires p in Listed(stanzas)
    ensures f in stanzas && p == EntryOf(f) && p.packageName != ""
  {
    hide EntryOf;
    var last := stanzas[|stanzas| - 1];
    if EntryOf(last) == p && p.packageName != "" {
      f := last;
    } else {
      f := ListedFrom(stanzas[..|stanzas| - 1], p);
    }
  }

  lemma EntryStorableIff(f: Fields)
    requires NeatFields(f)
    ensures var p := EntryOf(f); EntryStorable(p) <==> '\n' !in p.version && '\n' !in p.architecture
  {
    hide Trim, Depends.Parsed, DetectTermux, Depends.CleanName;
    Depends.ParsedIsClean(Get(f, "Depends"));
    Depends.ParsedIsClean(Get(f, "Pre-Depends"));
    TrimIdIff("");
  }

  /** Of the entries an index file can hold, exactly those survive the status file whose
      version and architecture have no continuation line. */
  lemma ParsedStorableIff(content: string, p: PackageEntry)
    requires p in EntriesIn(content)
    ensures EntryStorable(p) <==> '\n' !in p.version && '\n' !in p.architecture
  {
    hide Lines, Read, EntryOf, Listed, EntryStorable, NeatFields, Reader.Flushed;
    ReadIsNeat(Lines(content));
    FlushIsNeat(Read(Start(), Lines(content)));
    var f := ListedFrom(Stanzas(Lines(content)), p);
    EntryStorableIff(f);
  }

  lemma FlushIsNeat(r: Reader)
    requires NeatReader(r)
    ensures NeatReader(r.Flushed())
  {
  }

  // ----- the index text behind SPLIT_ENTRY -----

  const PACKAGE_LINE := Entry(Package, "vim", true)
  const VERSION_LINE := Entry(Version, "1", true)
  const ARCH_LINE := Entry(Architecture, "all", true)

  /** A stanza whose version goes on in a second line. */
  const SPLIT_TEXT := "Package: vim\n" + ("Version: 1\n" + (" Depends: libx\n" + "Architecture: all\n"))

  function SplitLines(): seq<string> {
    [EntryLine(PACKAGE_LINE), EntryLine(VERSION_LINE), " Depends: libx", EntryLine(ARCH_LINE)]
  }

  lemma ItsLines()
    ensures EntryLine(PACKAGE_LINE) + "\n" == "Package: vim\n" && '\n' !in EntryLine(PACKAGE_LINE)
    ensures EntryLine(VERSION_LINE) + "\n" == "Version: 1\n" && '\n' !in EntryLine(VERSION_LINE)
    ensures EntryLine(ARCH_LINE) + "\n" == "Architecture: all\n" && '\n' !in EntryLine(ARCH_LINE)
    ensures " Depends: libx" + "\n" == " Depends: libx\n" && '\n' !in " Depends: libx"
  {
  }

  lemma SplitText()
    ensures Unlines(SplitLines()) == SPLIT_TEXT && SingleLines(SplitLines())
  {
    hide Unlines, EntryLine;
    ItsLines();
    var a, b, c, d := EntryLine(PACKAGE_LINE), EntryLine(VERSION_LINE), " Depends: libx", EntryLine(ARCH_LINE);
    assert SplitLines() == [a] + ([b] + ([c] + ([d] + [])));
    StatusSettles.UnlinesCons(a, [b] + ([c] + ([d] + [])));
    StatusSettles.UnlinesCons(b, [c] + ([d] + []));
    StatusSettles.UnlinesCons(c, [d] + []);
    StatusSettles.UnlinesCons(d, []);
    NoUnlines();
    assert d + "\n" + "" == d + "\n";
  }

  lemma NoUnlines()
    ensures Unlines([]) == ""
  {
  }

  lemma PlainPieces()
    ensures PlainValue("vim") && PlainValue("1") && PlainValue("all") && Trim(" Depends: libx") == "Depends: libx"
  {
    hide Trim;
    TrimIdIff("vim");
    TrimIdIff("1");
    TrimIdIff("all");
    TrimLead("Depends: libx");
    TrimIdIff("Depends: libx");
    assert " " + "Depends: libx" == " Depends: libx";
  }

  const NAMED := Reader([], map["Package" := "vim"], "Package")
  const VERSIONED := Reader([], map["Package" := "vim", "Version" := "1"], "Version")
  const CONTINUED := Reader([], map["Package" := "vim", "Version" := "1\nDepends: libx"], "Version")
  const COMPLETE_STANZA := map["Package" := "vim", "Version" := "1\nDepends: libx", "Architecture" := "all"]

  lemma FieldSteps()
    ensures Start().Next(EntryLine(PACKAGE_LINE)) == NAMED && NAMED.Next(EntryLine(VERSION_LINE)) == VERSIONED
    ensures CONTINUED.Next(EntryLine(ARCH_LINE)) == Reader([], COMPLETE_STANZA, "Architecture")
  {
    hide Trim, PlainValue, EntryLine, Find, Reader.Next;
    PlainPieces();
    EntryIsRead(Start(), PACKAGE_LINE);
    EntryIsRead(NAMED, VERSION_LINE);
    EntryIsRead(CONTINUED, ARCH_LINE);
  }

  lemma ContinuationStep()
    ensures VERSIONED.Next(" Depends: libx") == CONTINUED
  {
    hide Trim, Find;
    PlainPieces();
    assert DropCr(" Depends: libx") == " Depends: libx";
    assert "1" + "\n" + "Depends: libx" == "1\nDepends: libx";
  }

  lemma SplitIsRead()
    ensures Read(Start(), SplitLines()) == Reader([], COMPLETE_STANZA, "Architecture")
  {
    hide EntryLine, Read, Reader.Next;
    FieldSteps();
    ContinuationStep();
    var a, b, c, d := EntryLine(PACKAGE_LINE), EntryLine(VERSION_LINE), " Depends: libx", EntryLine(ARCH_LINE);
    assert SplitLines() == [] + [a] + [b] + [c] + [d];
    NothingYet();
    ReadPush(Start(), [], a);
    ReadPush(Start(), [] + [a], b);
    ReadPush(Start(), [] + [a] + [b], c);
    ReadPush(Start(), [] + [a] + [b] + [c], d);
  }

  lemma NothingYet()
    ensures Read(Start(), []) == Start()
  {
  }

  /** The entry that opens the database comes from this index text. */
  lemma SplitEntryIsParsed()
    ensures EntriesIn(SPLIT_TEXT) == [SPLIT_ENTRY]
  {
    hide Lines, Read, Unlines, EntryOf;
    SplitText();
    var ls := SplitLines();
    LinesOfUnlines(ls, "");
    NoLines();
    assert Unlines(ls) + "" == Unlines(ls) && ls + [] == ls;
    SplitIsRead();
    var f := Read(Start(), ls).fields;
    assert "Package" in f;
    assert Stanzas(ls) == [f];
    SplitEntryOf(f);
    assert [f][..0] == [] && Listed([f][..0]) == [];
  }

  lemma SplitEntryOf(f: Fields)
    requires f == COMPLETE_STANZA
    ensures EntryOf(f) == SPLIT_ENTRY
  {
    hide Depends.Parsed;
    Depends.NothingParsed();
    assert "Depends" !in f && "Pre-Depends" !in f && "Filename" !in f;
  }
}
