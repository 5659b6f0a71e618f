/** What a Packages file means, stated on its text: which entries a reader gets from stanzas
    printed one after the other. */
module PackageText {
  import opened Wrappers
  import opened Text
  import opened RepoIndex
  import opened StatusFile
  import opened PackageIndex
  import Depends
  import StatusSettles

  /** The fields of a stanza that an install depends on. */
  datatype Listing = Listing(
    name: string,
    version: string,
    architecture: string,
    filename: string,
    depends: seq<Depends.Item>,
    preDepends: seq<Depends.Item>)

  /** A dependency field as written: names and what follows them. */
  function Field(items: seq<Depends.Item>): string { Depends.Joined(Depends.Texts(items)) }

  function NamesIn(items: seq<Depends.Item>): (r: seq<string>)
    ensures |r| == |items| && forall i :: 0 <= i < |r| ==> r[i] == items[i].name
  {
    seq(|items|, i requires 0 <= i < |items| => items[i].name)
  }

  /** On one line, and no white space at either end. */
  ghost predicate OneLine(v: string) {
    && (forall i :: 0 <= i < |v| ==> v[i] != '\n')
    && (v != "" ==> v[0] != ' ' && !('\t' <= v[0] <= '\r') && v[|v| - 1] != ' ' && !('\t' <= v[|v| - 1] <= '\r'))
  }

  ghost predicate Printable(l: Listing) {
    && l.name != "" && OneLine(l.name) && OneLine(l.version) && OneLine(l.architecture) && OneLine(l.filename)
    && OneLine(Field(l.depends)) && OneLine(Field(l.preDepends))
    && (forall it :: it in l.depends ==> Depends.Proper(it)) && (forall it :: it in l.preDepends ==> Depends.Proper(it))
  }

  /** A stanza with the blank line that ends it. */
  function Printed(l: Listing): string {
    "Package: " + l.name + "\n" +
    ("Version: " + l.version + "\n" +
     ("Architecture: " + l.architecture + "\n" +
      ("Filename: " + l.filename + "\n" +
       ("Depends: " + Field(l.depends) + "\n" +
        ("Pre-Depends: " + Field(l.preDepends) + "\n" + ("\n" + ""))))))
  }

  function File(ls: seq<Listing>): string {
    if ls == [] then "" else File(ls[..|ls| - 1]) + Printed(ls[|ls| - 1])
  }

  /** text holds needle, a text in lower case, in any mixture of cases. */
  ghost predicate Mentions(text: string, needle: string) {
    exists i :: 0 <= i <= |text| - |needle| && MentionsAt(text, needle, i)
  }

  ghost predicate MentionsAt(text: string, needle: string, i: nat)
    requires i + |needle| <= |text|
  {
    forall k :: 0 <= k < |needle| ==>
                  text[i + k] == needle[k] || ('A' <= text[i + k] <= 'Z' && text[i + k] as int + 32 == needle[k] as int)
  }

  ghost predicate TermuxName(d: string) {
    Mentions(d, "libandroid-glob") || Mentions(d, "libandroid-support") || Mentions(d, "termux-tools")
  }

  /** p is the entry of this stanza. */
  ghost predicate Reads(p: PackageEntry, l: Listing) {
    && p.packageName == l.name && p.version == l.version && p.architecture == l.architecture
    && p.depends == NamesIn(l.depends) + NamesIn(l.preDepends)
    && (p.isTermuxPackage <==>
        Mentions(l.filename, "data/data/com.termux" + "/files/usr") || exists d :: d in p.depends && TermuxName(d))
    && p.repoUri == "" && p.repoDist == "" && p.repoComponent == ""
  }

  // ----- values -----

  lemma OneLineIsPlain(v: string)
    ensures OneLine(v) ==> PlainValue(v)
  {
    hide Trim;
    TrimIdIff(v);
  }

  lemma FieldIsRead(items: seq<Depends.Item>)
    requires OneLine(Field(items)) && forall it :: it in items ==> Depends.Proper(it)
    ensures PlainValue(Field(items)) && Depends.Parsed(Field(items)) == NamesIn(items)
  {
    hide OneLine, Depends.Proper, Depends.Joined, Depends.Parsed, PlainValue;
    OneLineIsPlain(Field(items));
    Depends.FieldIsParsed(items);
  }

  /** Bare names without decoration always fit. */
  lemma BareNamesFit(ds: seq<string>, items: seq<Depends.Item>)
    requires |items| == |ds| && forall i :: 0 <= i < |ds| ==> Depends.Bare(ds[i]) && items[i] == Depends.Item(ds[i], "")
    ensures OneLine(Field(items)) && (forall it :: it in items ==> Depends.Proper(it)) && NamesIn(items) == ds
  {
    hide Depends.Joined, Depends.Bare;
    assert Depends.Texts(items) == ds by {
      assert forall i :: 0 <= i < |ds| ==> Depends.Texts(items)[i] == ds[i] + "" == ds[i];
    }
    forall d | d in ds
      ensures Depends.CleanName(d)
    {
      Depends.BareIsClean(d);
    }
    if ds == [] {
      Depends.NothingParsed();
      NothingJoined();
    } else {
      JoinedChars(ds);
    }
  }

  lemma NothingJoined()
    ensures Depends.Joined([]) == ""
  {
  }

  // ----- the Termux mark -----

  predicate IsLower(needle: string) { needle != "" && forall k :: 0 <= k < |needle| ==> !('A' <= needle[k] <= 'Z') }

  lemma FoldIsMention(text: string, needle: string, i: nat)
    requires IsLower(needle) && i + |needle| <= |text|
    ensures FoldsAt(text, needle, i) <==> MentionsAt(text, needle, i)
  {
    var part := text[i..i + |needle|];
    assert forall k :: 0 <= k < |needle| ==> ToLower(needle)[k] == needle[k] && ToLower(part)[k] == Lower(text[i + k]);
    if FoldsAt(text, needle, i) {
      assert forall k :: 0 <= k < |needle| ==> ToLower(part)[k] == needle[k];
    }
    if MentionsAt(text, needle, i) {
      assert ToLower(part) == ToLower(needle);
    }
  }

  lemma ContainsIsMention(text: string, needle: string)
    requires IsLower(needle)
    ensures ContainsFold(text, needle) <==> Mentions(text, needle)
  {
    hide FoldsAt, MentionsAt;
    forall i | 0 <= i <= |text| - |needle|
      ensures FoldsAt(text, needle, i) <==> MentionsAt(text, needle, i)
    {
      FoldIsMention(text, needle, i);
    }
  }

  lemma NeedlesAreLower()
    ensures IsLower("data/data/com.termux/files/usr") && IsLower("libandroid-glob")
    ensures IsLower("libandroid-support") && IsLower("termux-tools")
    ensures "data/data/com.termux" + "/files/usr" == "data/data/com.termux/files/usr"
  {
  }

  lemma MarkIs(filename: string, depends: seq<string>)
    ensures DetectTermux(filename, depends) <==>
              Mentions(filename, "data/data/com.termux" + "/files/usr") || exists d :: d in depends && TermuxName(d)
  {
    hide ContainsFold, Mentions, IsLower;
    NeedlesAreLower();
    ContainsIsMention(filename, "data/data/com.termux/files/usr");
    forall d
      ensures TermuxName(d) <==> ContainsFold(d, "libandroid-glob") || ContainsFold(d, "libandroid-support")
                                 || ContainsFold(d, "termux-tools")
    {
      ContainsIsMention(d, "libandroid-glob");
      ContainsIsMention(d, "libandroid-support");
      ContainsIsMention(d, "termux-tools");
    }
  }

  // ----- lines -----

  function StanzaLines(l: Listing): seq<string> {
    [] + ["Package" + ": " + l.name] + ["Version" + ": " + l.version] + ["Architecture" + ": " + l.architecture]
    + ["Filename" + ": " + l.filename] + ["Depends" + ": " + Field(l.depends)]
    + ["Pre-Depends" + ": " + Field(l.preDepends)] + [""]
  }

  function FileLines(ls: seq<Listing>): seq<string> {
    if ls == [] then [] else FileLines(ls[..|ls| - 1]) + StanzaLines(ls[|ls| - 1])
  }

  lemma UnlinesLast(ls: seq<string>, l: string)
    ensures Unlines(ls + [l]) == Unlines(ls) + (l + "\n")
  {
    UnlinesConcat(ls, [l]);
    assert Unlines([l][1..]) == "";
    assert l + "\n" + "" == l + "\n";
  }

  lemma SixLines(a: string, b: string, c: string, d: string, e: string, f: string)
    ensures Unlines([] + [a] + [b] + [c] + [d] + [e] + [f] + [""]) ==
            a + "\n" + (b + "\n" + (c + "\n" + (d + "\n" + (e + "\n" + (f + "\n" + ("\n" + ""))))))
  {
    hide Unlines;
    var g := "";
    assert [] + [a] + [b] + [c] + [d] + [e] + [f] + [g] == [a] + ([b] + ([c] + ([d] + ([e] + ([f] + ([g] + []))))));
    StatusSettles.UnlinesCons(a, [b] + ([c] + ([d] + ([e] + ([f] + ([g] + []))))));
    StatusSettles.UnlinesCons(b, [c] + ([d] + ([e] + ([f] + ([g] + [])))));
    StatusSettles.UnlinesCons(c, [d] + ([e] + ([f] + ([g] + []))));
    StatusSettles.UnlinesCons(d, [e] + ([f] + ([g] + [])));
    StatusSettles.UnlinesCons(e, [f] + ([g] + []));
    StatusSettles.UnlinesCons(f, [g] + []);
    StatusSettles.UnlinesCons(g, []);
    NoUnlines();
    assert g + "\n" == "\n";
  }

  lemma Labels()
    ensures "Package" + ": " == "Package: " && "Version" + ": " == "Version: " && "Architecture" + ": " == "Architecture: "
    ensures "Filename" + ": " == "Filename: " && "Depends" + ": " == "Depends: " && "Pre-Depends" + ": " == "Pre-Depends: "
  {
  }

  lemma StanzaPrints(l: Listing)
    ensures Unlines(StanzaLines(l)) == Printed(l)
  {
    hide Unlines, Field;
    Labels();
    SixLines("Package: " + l.name, "Version: " + l.version, "Architecture: " + l.architecture, "Filename: " + l.filename,
             "Depends: " + Field(l.depends), "Pre-Depends: " + Field(l.preDepends));
  }

  lemma {:induction false} FilePrints(ls: seq<Listing>)
    ensures Unlines(FileLines(ls)) == File(ls)
  {
    hide Unlines, StanzaLines, Printed;
    if ls == [] {
      NoUnlines();
    } else {
      FilePrints(ls[..|ls| - 1]);
      StanzaPrints(ls[|ls| - 1]);
      UnlinesConcat(FileLines(ls[..|ls| - 1]), StanzaLines(ls[|ls| - 1]));
    }
  }

  /** One line of a stanza is read as its key and value. */
  lemma LineIsRead(r: Reader, ls: seq<string>, key: string, value: string)
    requires PlainKey(key) && PlainValue(value)
    ensures var now := Read(r, ls); Read(r, ls + [key + ": " + value]) == Reader(now.stanzas, now.fields[key := value], key)
    ensures '\n' !in key + ": " + value
  {
    hide Find, Trim, DropCr, Read;
    ColonLine(key, value);
    TrimLead(value);
    ReadPush(r, ls, key + ": " + value);
  }

  lemma KeysArePlain()
    ensures PlainKey("Package") && PlainKey("Version") && PlainKey("Architecture") && PlainKey("Filename")
    ensures PlainKey("Depends") && PlainKey("Pre-Depends")
  {
    hide PlainKey;
    LettersArePlain("Package");
    LettersArePlain("Version");
    LettersArePlain("Architecture");
    LettersArePlain("Filename");
    LettersArePlain("Depends");
    LettersArePlain("Pre-Depends");
  }

  lemma PrintableValues(l: Listing)
    requires Printable(l)
    ensures PlainValue(l.name) && PlainValue(l.version) && PlainValue(l.architecture) && PlainValue(l.filename)
    ensures PlainValue(Field(l.depends)) && Depends.Parsed(Field(l.depends)) == NamesIn(l.depends)
    ensures PlainValue(Field(l.preDepends)) && Depends.Parsed(Field(l.preDepends)) == NamesIn(l.preDepends)
  {
    hide OneLine, Depends.Proper, PlainValue, Field, Depends.Parsed;
    OneLineIsPlain(l.name);
    OneLineIsPlain(l.version);
    OneLineIsPlain(l.architecture);
    OneLineIsPlain(l.filename);
    FieldIsRead(l.depends);
    FieldIsRead(l.preDepends);
  }

  function FieldsOfListing(l: Listing): Fields {
    map["Package" := l.name, "Version" := l.version, "Architecture" := l.architecture, "Filename" := l.filename,
        "Depends" := Field(l.depends), "Pre-Depends" := Field(l.preDepends)]
  }

  lemma AddedFields(l: Listing)
    ensures map["Package" := l.name]["Version" := l.version]["Architecture" := l.architecture]["Filename" := l.filename]
               ["Depends" := Field(l.depends)]["Pre-Depends" := Field(l.preDepends)] == FieldsOfListing(l)
    ensures FieldsOfListing(l) != map[]
  {
    hide Field;
    assert "Package" in FieldsOfListing(l);
  }

  lemma StanzaIsRead(ss: seq<Fields>, l: Listing)
    requires Printable(l)
    ensures Read(Reader(ss, map[], ""), StanzaLines(l)) == Reader(ss + [FieldsOfListing(l)], map[], "")
    ensures SingleLines(StanzaLines(l))
  {
    hide Printable, PlainKey, PlainValue, Read, Reader.Next, Field, Depends.Parsed, FieldsOfListing;
    KeysArePlain();
    PrintableValues(l);
    var r := Reader(ss, map[], "");
    ReadEnds(r, []);
    var a, b, c := "Package" + ": " + l.name, "Version" + ": " + l.version, "Architecture" + ": " + l.architecture;
    var d, e := "Filename" + ": " + l.filename, "Depends" + ": " + Field(l.depends);
    var f := "Pre-Depends" + ": " + Field(l.preDepends);
    LineIsRead(r, [], "Package", l.name);
    LineIsRead(r, [] + [a], "Version", l.version);
    LineIsRead(r, [] + [a] + [b], "Architecture", l.architecture);
    LineIsRead(r, [] + [a] + [b] + [c], "Filename", l.filename);
    LineIsRead(r, [] + [a] + [b] + [c] + [d], "Depends", Field(l.depends));
    LineIsRead(r, [] + [a] + [b] + [c] + [d] + [e], "Pre-Depends", Field(l.preDepends));
    ReadPush(r, [] + [a] + [b] + [c] + [d] + [e] + [f], "");
    AddedFields(l);
    BlankFlushes(Read(r, [] + [a] + [b] + [c] + [d] + [e] + [f]));
  }

  lemma BlankFlushes(r: Reader)
    ensures r.Next("") == r.Flushed()
  {
  }

  lemma {:induction false} FileIsRead(ls: seq<Listing>)
    requires forall l :: l in ls ==> Printable(l)
    ensures Read(Start(), FileLines(ls)) == Reader(StanzasOfFile(ls), map[], "") && SingleLines(FileLines(ls))
  {
    hide Printable, Read, StanzaLines, FieldsOfListing;
    if ls == [] {
      ReadEnds(Start(), []);
    } else {
      var before, last := ls[..|ls| - 1], ls[|ls| - 1];
      FileIsRead(before);
      StanzaIsRead(StanzasOfFile(before), last);
      ReadConcat(Start(), FileLines(before), StanzaLines(last));
    }
  }

  function StanzasOfFile(ls: seq<Listing>): seq<Fields> {
    if ls == [] then [] else StanzasOfFile(ls[..|ls| - 1]) + [FieldsOfListing(ls[|ls| - 1])]
  }

  lemma FieldOf(l: Listing)
    ensures var f := FieldsOfListing(l);
            && Get(f, "Package") == l.name && Get(f, "Version") == l.version && Get(f, "Architecture") == l.architecture
            && Get(f, "Filename") == l.filename && Get(f, "Depends") == Field(l.depends)
            && Get(f, "Pre-Depends") == Field(l.preDepends)
  {
    hide Field;
  }

  lemma EntryReads(l: Listing)
    requires Printable(l)
    ensures Reads(EntryOf(FieldsOfListing(l)), l) && l.name != ""
  {
    hide FieldsOfListing, Get, OneLine, Depends.Proper, Field, Depends.Parsed, DetectTermux, TermuxName, Mentions;
    FieldOf(l);
    PrintableValues(l);
    MarkIs(l.filename, NamesIn(l.depends) + NamesIn(l.preDepends));
  }

  ghost predicate AllRead(ps: seq<PackageEntry>, ls: seq<Listing>) {
    |ps| == |ls| && forall i :: 0 <= i < |ls| ==> Reads(ps[i], ls[i])
  }

  lemma {:induction false} ListingsAreListed(ls: seq<Listing>)
    requires forall l :: l in ls ==> Printable(l)
    ensures AllRead(Listed(StanzasOfFile(ls)), ls)
  {
    hide Printable, EntryOf, FieldsOfListing, Reads;
    if ls != [] {
      var before, last := ls[..|ls| - 1], ls[|ls| - 1];
      ListingsAreListed(before);
      EntryReads(last);
      NamedByReading(EntryOf(FieldsOfListing(last)), last);
      var ss, f := StanzasOfFile(before), FieldsOfListing(last);
      assert (ss + [f])[..|ss|] == ss;
      assert Listed(ss + [f]) == Listed(ss) + [EntryOf(f)];
    }
  }

  lemma NamedByReading(p: PackageEntry, l: Listing)
    requires Reads(p, l)
    ensures p.packageName == l.name
  {
  }

  /** A Packages file printed stanza by stanza is read as one entry a stanza, with the printed
      name, version and architecture, both dependency lists, and the Termux mark exactly if
      the file name or a dependency calls for it. */
  lemma FileIsParsed(ls: seq<Listing>)
    requires forall l :: l in ls ==> Printable(l)
    ensures AllRead(EntriesIn(File(ls)), ls)
  {
    hide Printable, FileLines, File, Unlines, Lines, Read, Listed, Reads, StanzasOfFile;
    FilePrints(ls);
    FileIsRead(ls);
    LinesOfUnlines(FileLines(ls), "");
    NoLines();
    assert Unlines(FileLines(ls)) + "" == Unlines(FileLines(ls)) && FileLines(ls) + [] == FileLines(ls);
    ListingsAreListed(ls);
  }
}
