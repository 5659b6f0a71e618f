/** Reading the ar container of a .deb: the member loop and what it writes. */
module DebExtractor {
  import opened Wrappers
  import opened Text

  const MAGIC := "!<arch>\n"
  const HEADER_SIZE := 60
  const BUF_SIZE := 8192

  // ----- header fields -----

  function TrimRightSpaces(s: string): (r: string)
    ensures r <= s && (r == "" || (r[|r| - 1] != ' ' && r[|r| - 1] != '\n'))
  {
    if s != "" && (s[|s| - 1] == ' ' || s[|s| - 1] == '\n') then TrimRightSpaces(s[..|s| - 1]) else s
  }

  /** The name field without padding and without one trailing slash. */
  function NameOf(field: string): string {
    var name := TrimRightSpaces(field);
    if name != "" && name[|name| - 1] == '/' then name[..|name| - 1] else name
  }

  function SizeOf(field: string): Option<nat> { Strtoul(TrimRightSpaces(field)) }

  predicate IsControl(name: string) { "control.tar" <= name }

  predicate IsData(name: string) { "data.tar" <= name }

  datatype Compression = Plain | Gzip | Xz | Bzip2

  predicate EndsWith(s: string, suffix: string) { |suffix| <= |s| && s[|s| - |suffix|..] == suffix }

  function DetectCompression(name: string): Compression {
    if EndsWith(name, ".gz") then Gzip
    else if EndsWith(name, ".xz") then Xz
    else if EndsWith(name, ".bz2") then Bzip2
    else Plain
  }

  // ----- meaning of an archive -----

  datatype Member = Member(name: string, data: string)

  /** The members of an archive body, or nothing if it is malformed. */
  function Decode(s: string): Option<seq<Member>>
    decreases |s|
  {
    if |s| < HEADER_SIZE then Some([])
    else if s[58] != '`' || s[59] != '\n' then None
    else
      match SizeOf(s[48..58])
      case None => None
      case Some(size) =>
        var body := s[HEADER_SIZE..];
        if |body| < size + size % 2 then None
        else
          match Decode(body[size + size % 2..])
          case None => None
          case Some(more) => Some([Member(NameOf(s[..16]), body[..size])] + more)
  }

  function DecodeArchive(bytes: string): Option<seq<Member>> {
    if MAGIC <= bytes then Decode(bytes[|MAGIC|..]) else None
  }

  type Files = map<string, string>

  /** The files after the members were written one after the other. */
  function Written(files: Files, ms: seq<Member>): Files {
    if ms == [] then files
    else
      var before, m := Written(files, ms[..|ms| - 1]), ms[|ms| - 1];
      if IsControl(m.name) || IsData(m.name) then before[m.name := m.data] else before
  }

  datatype DebParts = DebParts(
    controlTar: string,
    controlCompression: Compression,
    dataTar: string,
    dataCompression: Compression)

  const NO_PARTS := DebParts("", Plain, "", Plain)

  function Noted(parts: DebParts, name: string): DebParts {
    if IsControl(name) then parts.(controlTar := name, controlCompression := DetectCompression(name))
    else if IsData(name) then parts.(dataTar := name, dataCompression := DetectCompression(name))
    else parts
  }

  function PartsOf(ms: seq<Member>): DebParts {
    if ms == [] then NO_PARTS else Noted(PartsOf(ms[..|ms| - 1]), ms[|ms| - 1].name)
  }

  lemma StepMembers(files: Files, ms: seq<Member>, m: Member)
    ensures Written(files, ms + [m]) ==
            if IsControl(m.name) || IsData(m.name) then Written(files, ms)[m.name := m.data] else Written(files, ms)
    ensures PartsOf(ms + [m]) == Noted(PartsOf(ms), m.name)
  {
    hide IsControl, IsData, Noted;
    assert (ms + [m])[..|ms|] == ms;
  }

  function Prefixed(ms: seq<Member>, more: Option<seq<Member>>): Option<seq<Member>> {
    match more
    case None => None
    case Some(xs) => Some(ms + xs)
  }

  lemma PrefixedPush(ms: seq<Member>, m: Member, more: Option<seq<Member>>)
    ensures Prefixed(ms, Prefixed([m], more)) == Prefixed(ms + [m], more)
  {
    if more.Some? {
      assert ms + ([m] + more.value) == ms + [m] + more.value;
    }
  }

  lemma PrefixedEnds(ms: seq<Member>, more: Option<seq<Member>>)
    ensures Prefixed([], more) == more && Prefixed(ms, Some([])) == Some(ms) && Prefixed(ms, None) == None
  {
    if more.Some? {
      assert [] + more.value == more.value;
    }
    assert ms + [] == ms;
  }

  lemma Slices(bytes: string, start: nat, size: nat)
    requires start + HEADER_SIZE + size + size % 2 <= |bytes|
    ensures bytes[start..][HEADER_SIZE..HEADER_SIZE + size] == bytes[start + HEADER_SIZE..start + HEADER_SIZE + size]
    ensures bytes[start..][HEADER_SIZE + size + size % 2..] == bytes[start + HEADER_SIZE + size + size % 2..]
  {
  }

  lemma BodySlices(s: string, size: nat)
    requires |s| >= HEADER_SIZE + size + size % 2
    ensures s[HEADER_SIZE..][size + size % 2..] == s[HEADER_SIZE + size + size % 2..]
    ensures s[HEADER_SIZE..][..size] == s[HEADER_SIZE..HEADER_SIZE + size]
  {
  }

  lemma DecodeMember(s: string, size: nat)
    requires |s| >= HEADER_SIZE + size + size % 2 && s[58] == '`' && s[59] == '\n' && SizeOf(s[48..58]) == Some(size)
    ensures Decode(s) == Prefixed([Member(NameOf(s[..16]), s[HEADER_SIZE..HEADER_SIZE + size])], Decode(s[HEADER_SIZE + size + size % 2..]))
  {
    hide SizeOf, NameOf;
    BodySlices(s, size);
  }

  lemma DecodeFails(s: string)
    requires |s| >= HEADER_SIZE
    requires s[58] != '`' || s[59] != '\n' || SizeOf(s[48..58]).None?
             || |s| < HEADER_SIZE + SizeOf(s[48..58]).value + SizeOf(s[48..58]).value % 2
    ensures Decode(s) == None
  {
    hide SizeOf, NameOf;
  }

  lemma DecodeStep(s: string)
    ensures Decode(s) ==
            if |s| < HEADER_SIZE then Some([])
            else if s[58] != '`' || s[59] != '\n' || SizeOf(s[48..58]).None? then None
            else
              var size := SizeOf(s[48..58]).value;
              if |s| < HEADER_SIZE + size + size % 2 then None
              else Prefixed([Member(NameOf(s[..16]), s[HEADER_SIZE..HEADER_SIZE + size])], Decode(s[HEADER_SIZE + size + size % 2..]))
  {
    hide SizeOf, NameOf, Prefixed, Decode;
    if |s| < HEADER_SIZE {
      DecodeEnds(s);
    } else {
      if s[58] != '`' || s[59] != '\n' || SizeOf(s[48..58]).None?
         || |s| < HEADER_SIZE + SizeOf(s[48..58]).value + SizeOf(s[48..58]).value % 2 {
        DecodeFails(s);
      } else {
        DecodeMember(s, SizeOf(s[48..58]).value);
      }
    }
  }

  lemma DecodeEnds(s: string)
    requires |s| < HEADER_SIZE
    ensures Decode(s) == Some([])
  {
  }

  // ----- extraction -----

  /** The input stream; `errors` counts the read errors met so far. */
  class Source {
    const bytes: string
    var pos: nat
    var errors: nat

    constructor (bytes: string)
      ensures this.bytes == bytes && pos == 0 && errors == 0 && Valid()
    {
      this.bytes := bytes;
      pos, errors := 0, 0;
    }

    ghost predicate Valid()
      reads this
    {
      pos <= |bytes|
    }

    /** Is the end of the file reached? A read error looks the same. */
    method PeekEnd() returns (end: bool)
      requires Valid()
      modifies this`errors
      ensures errors >= old(errors) && (errors == old(errors) ==> end == (pos == |bytes|)) && (!end ==> errors == old(errors))
    {
      var broken: bool := *;
      if broken {
        errors := errors + 1;
      }
      end := pos == |bytes| || broken;
    }

    /** A read of n bytes; short at the end of the file or after a read error. */
    method Read(n: nat) returns (ok: bool, buffer: string)
      requires Valid()
      modifies this
      ensures Valid() && errors >= old(errors)
      ensures ok ==> errors == old(errors) && pos == old(pos) + n && buffer == bytes[old(pos)..pos]
      ensures errors == old(errors) ==> ok == (old(pos) + n <= |bytes|)
    {
      var broken: bool := *;
      if broken {
        errors := errors + 1;
        return false, "";
      }
      ok := pos + n <= |bytes|;
      var end := if ok then pos + n else |bytes|;
      buffer := bytes[pos..end];
      pos := end;
    }
  }

  /** Every file is there, but some may lack their end. */
  ghost predicate Shortened(actual: Files, meant: Files) {
    actual.Keys == meant.Keys && forall f :: f in actual ==> actual[f] <= meant[f]
  }

  /** `after` is `before` with a file of that name that holds at least the start of data. */
  ghost predicate StartStored(after: Files, before: Files, name: string, data: string) {
    name in after && after[name] <= data && after == before[name := after[name]]
  }

  /** The output directory. Opening and writing may fail at any time, which the caller sees;
      `lost` counts the files whose last bytes did not reach the disk when they were closed,
      which nobody sees. */
  class OutputDir {
    var files: Files
    var faults: nat
    var lost: nat

    method Truncate(name: string) returns (ok: bool)
      modifies this
      ensures faults == old(faults) + (if ok then 0 else 1) && lost == old(lost)
      ensures ok ==> files == old(files)[name := ""]
    {
      ok := *;
      if ok {
        files := files[name := ""];
      } else {
        faults := faults + 1;
      }
    }

    method Append(name: string, buffer: string) returns (ok: bool)
      requires name in files
      modifies this
      ensures faults == old(faults) + (if ok then 0 else 1) && lost == old(lost)
      ensures ok ==> files == old(files)[name := old(files)[name] + buffer]
    {
      ok := *;
      if ok {
        files := files[name := files[name] + buffer];
      } else {
        faults := faults + 1;
      }
    }

    /** flush and close, whose result is not checked. */
    method Close(name: string)
      requires name in files
      modifies this
      ensures faults == old(faults) && lost >= old(lost)
      ensures lost == old(lost) <==> files == old(files)
      ensures StartStored(files, old(files), name, old(files)[name])
    {
      var written := files[name];
      var kept :| 0 <= kept <= |written|;
      assert written[..|written|] == written && files[name := written] == files;
      if kept < |written| {
        files, lost := files[name := written[..kept]], lost + 1;
      }
    }
  }

  /** Copies or skips the content of a member in chunks, and closes the file. */
  method StreamMember(input: Source, size: nat, keep: bool, name: string, dir: OutputDir) returns (ok: bool)
    requires input.Valid() && (keep ==> name in dir.files && dir.files[name] == "")
    modifies input, dir
    ensures input.Valid() && input.errors >= old(input.errors)
    ensures dir.faults >= old(dir.faults) && dir.lost >= old(dir.lost)
    ensures ok <==> old(input.pos) + size <= |input.bytes| && dir.faults == old(dir.faults) && input.errors == old(input.errors)
    ensures ok ==> input.pos == old(input.pos) + size
    ensures ok && !keep ==> dir.files == old(dir.files) && dir.lost == old(dir.lost)
    ensures ok && keep ==>
              var data := input.bytes[old(input.pos)..input.pos];
              && StartStored(dir.files, old(dir.files), name, data)
              && (dir.lost == old(dir.lost) <==> dir.files == old(dir.files)[name := data])
  {
    ghost var start := input.pos;
    assert keep ==> dir.files[name := ""] == dir.files;
    assert input.bytes[start..start] == "";
    var remaining := size;
    while remaining > 0
      invariant 0 <= remaining <= size && input.pos == start + (size - remaining) && input.Valid()
      invariant dir.faults == old(dir.faults) && dir.lost == old(dir.lost) && input.errors == old(input.errors)
      invariant keep ==> dir.files == old(dir.files)[name := input.bytes[start..input.pos]]
      invariant !keep ==> dir.files == old(dir.files)
    {
      var toRead := if remaining < BUF_SIZE then remaining else BUF_SIZE;
      ghost var before := input.pos;
      var buffer;
      ok, buffer := input.Read(toRead);
      if !ok {
        return;
      }
      if keep {
        assert input.bytes[start..before] + buffer == input.bytes[start..input.pos];
        ok := dir.Append(name, buffer);
        if !ok {
          return;
        }
      }
      remaining := remaining - toRead;
    }
    if keep {
      ghost var data := input.bytes[start..input.pos];
      dir.Close(name);
      assert dir.files == old(dir.files)[name := dir.files[name]];
    }
    ok := true;
  }

  lemma Overwritten(files: Files, name: string, data: string)
    ensures files[name := ""][name := data] == files[name := data]
  {
  }

  /** Notes a control or data member and opens its output file. */
  method OpenMember(name: string, parts: DebParts, dir: OutputDir) returns (ok: bool, keep: bool, outParts: DebParts)
    modifies dir
    ensures keep == (IsControl(name) || IsData(name)) && outParts == Noted(parts, name)
    ensures dir.faults == old(dir.faults) + (if ok then 0 else 1) && dir.lost == old(dir.lost)
    ensures ok ==> dir.files == if keep then old(dir.files)[name := ""] else old(dir.files)
  {
    hide IsControl, IsData, DetectCompression;
    var isControl, isData := IsControl(name), IsData(name);
    ok, keep, outParts := true, isControl || isData, parts;
    if keep {
      if isControl {
        outParts := outParts.(controlTar := name, controlCompression := DetectCompression(name));
      } else if isData {
        outParts := outParts.(dataTar := name, dataCompression := DetectCompression(name));
      }
      ok := dir.Truncate(name);
    }
  }

  datatype Step = Ended | Broken | Took

  /** The files after a member was handled: kept members are stored, at least their start. */
  ghost predicate Handled(after: Files, before: Files, m: Member, complete: bool) {
    if Kept(m.name)
    then StartStored(after, before, m.name, m.data) && (complete <==> after == before[m.name := m.data])
    else after == before && complete
  }

  predicate Kept(name: string) { IsControl(name) || IsData(name) }

  /** No file is written twice. */
  ghost predicate DistinctFiles(ms: seq<Member>) {
    forall i, j :: 0 <= i < j < |ms| && Kept(ms[i].name) && Kept(ms[j].name) ==> ms[i].name != ms[j].name
  }

  ghost predicate Stores(ms: seq<Member>, f: string) {
    exists m :: m in ms && m.name == f && Kept(f)
  }

  predicate SameFile(a: Files, b: Files, f: string) {
    if f in a then f in b && a[f] == b[f] else f !in b
  }

  /** Only files of kept members change. */
  ghost predicate OthersKept(after: Files, before: Files, ms: seq<Member>) {
    forall f :: !Stores(ms, f) ==> SameFile(after, before, f)
  }

  lemma StoresPush(ms: seq<Member>, m: Member)
    ensures forall f :: Stores(ms + [m], f) <==> Stores(ms, f) || (f == m.name && Kept(f))
    ensures DistinctFiles(ms + [m]) ==> DistinctFiles(ms) && !(Kept(m.name) && Stores(ms, m.name))
  {
    hide IsControl, IsData, Kept;
    assert forall x :: x in ms + [m] <==> x in ms || x == m;
    if DistinctFiles(ms + [m]) {
      assert (ms + [m])[|ms|] == m && forall i :: 0 <= i < |ms| ==> (ms + [m])[i] == ms[i];
    }
  }

  lemma {:induction false} WrittenKeepsOthers(files: Files, ms: seq<Member>)
    ensures OthersKept(Written(files, ms), files, ms)
  {
    hide IsControl, IsData, Kept;
    if ms != [] {
      var init, last := ms[..|ms| - 1], ms[|ms| - 1];
      assert ms == init + [last];
      WrittenKeepsOthers(files, init);
      StoresPush(init, last);
      StepMembers(files, init, last);
      assert Kept(last.name) == (IsControl(last.name) || IsData(last.name)) by { KeptIs(last.name); }
    }
  }

  lemma KeptIs(name: string)
    ensures Kept(name) == (IsControl(name) || IsData(name))
  {
  }

  /** Where no file is written twice, the files are right after a member exactly if they were
      right before and the member is complete. */
  lemma HandledIsExact(actual: Files, before: Files, files: Files, ms: seq<Member>, m: Member, complete: bool)
    requires Handled(actual, before, m, complete) && DistinctFiles(ms + [m])
    requires OthersKept(before, files, ms)
    ensures actual == Written(files, ms + [m]) <==> complete && before == Written(files, ms)
  {
    hide IsControl, IsData, Kept;
    KeptIs(m.name);
    StoresPush(ms, m);
    StepMembers(files, ms, m);
    WrittenKeepsOthers(files, ms);
    var w := Written(files, ms);
    if Kept(m.name) && actual == w[m.name := m.data] {
      forall f
        ensures SameFile(before, w, f)
      {
        if f == m.name {
          assert SameFile(before, files, f) && SameFile(w, files, f);
        } else {
          assert SameFile(actual, before, f) && SameFile(actual, w, f);
        }
      }
      SameFiles(before, w);
    }
  }

  lemma SameFiles(a: Files, b: Files)
    requires forall f :: SameFile(a, b, f)
    ensures a == b
  {
    assert forall f :: f in a ==> SameFile(a, b, f);
    assert forall f :: f in b ==> SameFile(a, b, f);
  }

  lemma HandledKeepsOthers(actual: Files, before: Files, files: Files, ms: seq<Member>, m: Member, complete: bool)
    requires Handled(actual, before, m, complete) && OthersKept(before, files, ms)
    ensures OthersKept(actual, files, ms + [m])
  {
    hide IsControl, IsData, Kept;
    StoresPush(ms, m);
    forall f | !Stores(ms + [m], f)
      ensures SameFile(actual, files, f)
    {
      assert SameFile(before, files, f) && SameFile(actual, before, f);
    }
  }

  /** One pass of the member loop. */
  method NextMember(input: Source, parts: DebParts, dir: OutputDir)
    returns (step: Step, outParts: DebParts, ghost m: Member)
    requires input.Valid()
    modifies input, dir
    ensures input.Valid() && input.errors >= old(input.errors)
    ensures dir.faults >= old(dir.faults) && dir.lost >= old(dir.lost)
    ensures step.Ended? ==>
              && (input.errors == old(input.errors) ==> Decode(input.bytes[old(input.pos)..]) == Some([])) && outParts == parts
              && dir.files == old(dir.files) && dir.faults == old(dir.faults) && dir.lost == old(dir.lost)
    ensures step.Broken? ==>
              || Decode(input.bytes[old(input.pos)..]).None?
              || dir.faults > old(dir.faults) || input.errors > old(input.errors)
    ensures step.Took? ==>
              && input.pos > old(input.pos) && dir.faults == old(dir.faults) && input.errors == old(input.errors)
              && outParts == Noted(parts, m.name)
              && Decode(input.bytes[old(input.pos)..]) == Prefixed([m], Decode(input.bytes[input.pos..]))
              && Handled(dir.files, old(dir.files), m, dir.lost == old(dir.lost))
  {
    hide Decode, SizeOf, NameOf, IsControl, IsData, Noted, Prefixed;
    outParts, m := parts, Member("", "");
    ghost var start, rest := input.pos, input.bytes[input.pos..];
    var errors := input.errors;
    DecodeStep(rest);
    var end := input.PeekEnd();
    if end {
      return Ended, outParts, m;
    }
    var ok, header := input.Read(HEADER_SIZE);
    if !ok {
      if input.errors > errors {
        return Broken, outParts, m;
      }
      return Ended, outParts, m;
    }
    HeaderFields(rest, header);
    if header[58] != '`' || header[59] != '\n' {
      return Broken, outParts, m;
    }
    var name := NameOf(header[..16]);
    var parsed := SizeOf(header[48..58]);
    if parsed == None {
      return Broken, outParts, m;
    }
    var memberSize := parsed.value;
    ghost var before := dir.files;
    var keep;
    ok, keep, outParts := OpenMember(name, outParts, dir);
    if !ok {
      return Broken, outParts, m;
    }
    ok := StreamMember(input, memberSize, keep, name, dir);
    if !ok {
      return Broken, outParts, m;
    }
    if memberSize % 2 != 0 {
      var pad;
      ok, pad := input.Read(1);
      if !ok {
        return Broken, outParts, m;
      }
    }
    Slices(input.bytes, start, memberSize);
    m := Member(name, rest[HEADER_SIZE..HEADER_SIZE + memberSize]);
    if keep {
      Overwritten(before, name, dir.files[name]);
    }
    step := Took;
  }

  lemma HandledKeeps(actual: Files, before: Files, files: Files, ms: seq<Member>, m: Member, complete: bool)
    requires Shortened(before, Written(files, ms)) && Handled(actual, before, m, complete)
    ensures Shortened(actual, Written(files, ms + [m]))
    ensures complete && before == Written(files, ms) ==> actual == Written(files, ms + [m])
  {
    hide IsControl, IsData, Kept, Shortened, StartStored;
    KeptIs(m.name);
    StepMembers(files, ms, m);
    if Kept(m.name) {
      StoredStays(actual, before, Written(files, ms), m.name, m.data);
    }
  }

  lemma StoredStays(after: Files, before: Files, meant: Files, name: string, data: string)
    requires Shortened(before, meant) && StartStored(after, before, name, data)
    ensures Shortened(after, meant[name := data])
  {
    var now := after[name];
    assert after.Keys == before.Keys + {name} && meant[name := data].Keys == meant.Keys + {name};
    forall f | f in after
      ensures after[f] <= meant[name := data][f]
    {
      assert f != name ==> f in before && after[f] == before[f];
    }
  }

  /** The member loop; `taken` are the members it handled. Without read errors it succeeds
      exactly when the archive is well formed and no write that is checked failed, and then it
      took every member; a read error between members passes for the end of the file. Every
      kept file is there and holds what its member says, unless its end was lost when it was
      closed; where no file is stored twice, the files are right only if nothing was lost. */
  method ExtractDebArchive(bytes: string, dir: OutputDir)
    returns (ok: bool, outParts: DebParts, readErrors: nat, ghost taken: seq<Member>)
    modifies dir
    ensures dir.faults >= old(dir.faults) && dir.lost >= old(dir.lost)
    ensures readErrors == 0 ==> ok == (DecodeArchive(bytes).Some? && dir.faults == old(dir.faults))
    ensures readErrors == 0 && ok ==> DecodeArchive(bytes) == Some(taken)
    ensures ok ==>
              && dir.faults == old(dir.faults) && outParts == PartsOf(taken)
              && Shortened(dir.files, Written(old(dir.files), taken)) && OthersKept(dir.files, old(dir.files), taken)
              && (dir.lost == old(dir.lost) ==> dir.files == Written(old(dir.files), taken))
              && (DistinctFiles(taken) && dir.files == Written(old(dir.files), taken) ==> dir.lost == old(dir.lost))
  {
    hide Decode, Written, PartsOf, Noted, Prefixed, Shortened, Handled, DistinctFiles, OthersKept;
    outParts, taken := NO_PARTS, [];
    var input := new Source(bytes);
    var magic;
    ok, magic := input.Read(8);
    if !ok || magic != MAGIC {
      return false, outParts, input.errors, taken;
    }
    ghost var all := Decode(bytes[8..]);
    PrefixedEnds([], all);
    NothingWritten(dir.files);
    while true
      invariant input.Valid() && input.bytes == bytes && fresh(input) && input.errors == 0
      invariant all == Prefixed(taken, Decode(bytes[input.pos..]))
      invariant dir.faults == old(dir.faults) && dir.lost >= old(dir.lost)
      invariant dir.lost == old(dir.lost) ==> dir.files == Written(old(dir.files), taken)
      invariant Shortened(dir.files, Written(old(dir.files), taken)) && outParts == PartsOf(taken)
      invariant OthersKept(dir.files, old(dir.files), taken)
      invariant DistinctFiles(taken) && dir.files == Written(old(dir.files), taken) ==> dir.lost == old(dir.lost)
      decreases |bytes| - input.pos
    {
      ghost var before, lost := dir.files, dir.lost;
      PrefixedEnds(taken, None);
      var step;
      ghost var m;
      step, outParts, m := NextMember(input, outParts, dir);
      match step {
        case Ended =>
          return true, outParts, input.errors, taken;
        case Broken =>
          return false, outParts, input.errors, taken;
        case Took =>
          StepMembers(old(dir.files), taken, m);
          PrefixedPush(taken, m, Decode(bytes[input.pos..]));
          HandledKeeps(dir.files, before, old(dir.files), taken, m, dir.lost == lost);
          HandledKeepsOthers(dir.files, before, old(dir.files), taken, m, dir.lost == lost);
          StoresPush(taken, m);
          if DistinctFiles(taken + [m]) {
            HandledIsExact(dir.files, before, old(dir.files), taken, m, dir.lost == lost);
          }
          taken := taken + [m];
      }
    }
  }

  lemma NothingWritten(files: Files)
    ensures Written(files, []) == files && PartsOf([]) == NO_PARTS && Shortened(files, files)
    ensures OthersKept(files, files, [])
  {
  }

  lemma HeaderFields(rest: string, header: string)
    requires |rest| >= HEADER_SIZE && header == rest[..HEADER_SIZE]
    ensures header[58] == rest[58] && header[59] == rest[59] && header[..16] == rest[..16] && header[48..58] == rest[48..58]
  {
  }

  // ----- encoding -----

  /** A member as an archiver writes it: `meta` stands for time stamp, owner, group and mode,
      `pad` for the byte after content of odd length. */
  datatype ArMember = ArMember(name: string, slash: bool, meta: string, data: string, pad: char)

  const MAX_FIELD_SIZE := 10_000_000_000

  predicate WellFormed(m: ArMember) {
    && |m.name| + (if m.slash then 1 else 0) <= 16 && |m.meta| == 32 && |m.data| < MAX_FIELD_SIZE
    && (m.slash || m.name == "" || m.name[|m.name| - 1] !in {' ', '\n', '/'})
  }

  function Spaces(n: nat): (r: string)
    ensures |r| == n
  {
    if n == 0 then "" else Spaces(n - 1) + " "
  }

  function Label(m: ArMember): string { if m.slash then m.name + "/" else m.name }

  function Header(m: ArMember): (r: string)
    requires WellFormed(m)
    ensures |r| == HEADER_SIZE
  {
    FieldFits(|m.data|);
    var size := Decimal(|m.data|);
    Label(m) + Spaces(16 - |Label(m)|) + m.meta + (size + Spaces(10 - |size|)) + "`\n"
  }

  function Padding(m: ArMember): string { if |m.data| % 2 == 0 then "" else [m.pad] }

  function Encode(ms: seq<ArMember>): string
    requires forall i :: 0 <= i < |ms| ==> WellFormed(ms[i])
  {
    if ms == [] then "" else Header(ms[0]) + (ms[0].data + (Padding(ms[0]) + Encode(ms[1..])))
  }

  function EncodeArchive(ms: seq<ArMember>): string
    requires forall i :: 0 <= i < |ms| ==> WellFormed(ms[i])
  {
    MAGIC + Encode(ms)
  }

  function Total(ms: seq<ArMember>): nat {
    if ms == [] then 0 else 60 + |ms[0].data| + |ms[0].data| % 2 + Total(ms[1..])
  }

  function Contents(ms: seq<ArMember>): seq<Member> {
    if ms == [] then [] else [Member(ms[0].name, ms[0].data)] + Contents(ms[1..])
  }

  function Pow10(k: nat): nat { if k == 0 then 1 else 10 * Pow10(k - 1) }

  lemma {:induction false} DecimalLength(n: nat, k: nat)
    requires 0 < k && n < Pow10(k)
    ensures |Decimal(n)| <= k
  {
    if n >= 10 {
      assert k > 1 by { assert Pow10(1) == 10; }
      DecimalLength(n / 10, k - 1);
    }
  }

  /** Every size below the limit fits into the ten characters of its field. */
  lemma FieldFits(n: nat)
    requires n < MAX_FIELD_SIZE
    ensures |Decimal(n)| <= 10
  {
    hide Decimal;
    assert Pow10(4) == 10_000;
    assert Pow10(8) == 100_000_000;
    assert Pow10(10) == MAX_FIELD_SIZE;
    DecimalLength(n, 10);
  }

  lemma TrimOne(s: string)
    ensures TrimRightSpaces(s + " ") == TrimRightSpaces(s)
  {
    assert (s + " ")[..|s|] == s;
  }

  lemma TrimNone(x: string)
    requires x == "" || (x[|x| - 1] != ' ' && x[|x| - 1] != '\n')
    ensures TrimRightSpaces(x) == x && x + Spaces(0) == x
  {
  }

  lemma {:induction false} PaddingTrimmed(x: string, n: nat)
    requires x == "" || (x[|x| - 1] != ' ' && x[|x| - 1] != '\n')
    ensures TrimRightSpaces(x + Spaces(n)) == x
  {
    hide TrimRightSpaces;
    if n == 0 {
      TrimNone(x);
    } else {
      PaddingTrimmed(x, n - 1);
      TrimOne(x + Spaces(n - 1));
      assert x + Spaces(n) == x + Spaces(n - 1) + " ";
    }
  }

  lemma NameIsRead(m: ArMember)
    requires WellFormed(m)
    ensures NameOf(Label(m) + Spaces(16 - |Label(m)|)) == m.name
  {
    hide TrimRightSpaces;
    PaddingTrimmed(Label(m), 16 - |Label(m)|);
    assert m.slash ==> Label(m)[..|m.name|] == m.name;
  }

  /** The decimal size field inverts its printing. */
  lemma SizeIsRead(n: nat)
    requires n < MAX_FIELD_SIZE
    ensures |Decimal(n)| <= 10 && SizeOf(Decimal(n) + Spaces(10 - |Decimal(n)|)) == Some(n)
  {
    hide TrimRightSpaces, Decimal, NumberOf, Strtoul, Spaces;
    FieldFits(n);
    var d := Decimal(n);
    assert d[|d| - 1] in d;
    PaddingTrimmed(d, 10 - |d|);
    NumberOfDecimal(n);
    DigitsAreRead(d);
  }

  lemma HeaderIsRead(m: ArMember)
    requires WellFormed(m)
    ensures var h := Header(m);
            h[58] == '`' && h[59] == '\n' && NameOf(h[..16]) == m.name && SizeOf(h[48..58]) == Some(|m.data|)
  {
    hide Decimal, NameOf, SizeOf, Spaces;
    NameIsRead(m);
    SizeIsRead(|m.data|);
    var h, size := Header(m), Decimal(|m.data|);
    assert h[..16] == Label(m) + Spaces(16 - |Label(m)|);
    assert h[48..58] == size + Spaces(10 - |size|);
  }

  lemma MemberIsRead(m: ArMember, rest: string)
    requires WellFormed(m)
    ensures Decode(Header(m) + (m.data + (Padding(m) + rest))) == Prefixed([Member(m.name, m.data)], Decode(rest))
  {
    hide Decode, NameOf, SizeOf, Header, Prefixed;
    var s := Header(m) + (m.data + (Padding(m) + rest));
    HeaderIsRead(m);
    DecodeStep(s);
    assert s[..16] == Header(m)[..16] && s[48..58] == Header(m)[48..58];
    assert s[58] == Header(m)[58] && s[59] == Header(m)[59];
    assert s[HEADER_SIZE..HEADER_SIZE + |m.data|] == m.data;
    assert s[HEADER_SIZE + |m.data| + |m.data| % 2..] == rest;
  }

  /** Decoding inverts encoding for every list of members; a tail too short for a header is
      dropped. */
  lemma {:induction false} DecodeInvertsEncode(ms: seq<ArMember>, tail: string)
    requires (forall i :: 0 <= i < |ms| ==> WellFormed(ms[i])) && |tail| < HEADER_SIZE
    ensures Decode(Encode(ms) + tail) == Some(Contents(ms)) && |Encode(ms)| == Total(ms)
  {
    hide Decode, Header, WellFormed, Padding;
    if ms == [] {
      assert Encode(ms) + tail == tail;
      DecodeStep(tail);
    } else {
      var m, more := ms[0], Encode(ms[1..]);
      DecodeInvertsEncode(ms[1..], tail);
      MemberIsRead(m, more + tail);
      EncodeSplit(m, more, tail);
    }
  }

  lemma EncodeSplit(m: ArMember, more: string, tail: string)
    requires WellFormed(m)
    ensures Header(m) + (m.data + (Padding(m) + more)) + tail == Header(m) + (m.data + (Padding(m) + (more + tail)))
    ensures |Header(m) + (m.data + (Padding(m) + more))| == 60 + |m.data| + |m.data| % 2 + |more|
  {
    hide Header;
  }

  lemma ArchiveRoundTrip(ms: seq<ArMember>, tail: string)
    requires (forall i :: 0 <= i < |ms| ==> WellFormed(ms[i])) && |tail| < HEADER_SIZE
    ensures DecodeArchive(EncodeArchive(ms) + tail) == Some(Contents(ms)) && |EncodeArchive(ms)| == 8 + Total(ms)
  {
    hide Decode, Encode, WellFormed;
    DecodeInvertsEncode(ms, tail);
    var s := EncodeArchive(ms) + tail;
    assert s[..8] == MAGIC && s[8..] == Encode(ms) + tail;
  }

  // ----- what is left in the output directory -----

  lemma NotBoth(name: string)
    ensures !(IsControl(name) && IsData(name)) && !IsControl("") && !IsData("")
  {
    assert IsControl(name) ==> name[0] == 'c';
    assert IsData(name) ==> name[0] == 'd';
  }

  /** The last control member decides the reported name, compression and content, whatever
      came before it. */
  lemma {:induction false} LastControlWins(files: Files, ms: seq<Member>, k: nat)
    requires k < |ms| && IsControl(ms[k].name) && forall j :: k < j < |ms| ==> !IsControl(ms[j].name)
    ensures var parts := PartsOf(ms);
            && parts.controlTar == ms[k].name && parts.controlCompression == DetectCompression(ms[k].name)
            && ms[k].name in Written(files, ms) && Written(files, ms)[ms[k].name] == ms[k].data
  {
    hide DetectCompression, IsControl, IsData;
    NotBoth(ms[|ms| - 1].name);
    if k < |ms| - 1 {
      LastControlWins(files, ms[..|ms| - 1], k);
    }
  }

  lemma {:induction false} LastDataWins(files: Files, ms: seq<Member>, k: nat)
    requires k < |ms| && IsData(ms[k].name) && forall j :: k < j < |ms| ==> !IsData(ms[j].name)
    ensures var parts := PartsOf(ms);
            && parts.dataTar == ms[k].name && parts.dataCompression == DetectCompression(ms[k].name)
            && ms[k].name in Written(files, ms) && Written(files, ms)[ms[k].name] == ms[k].data
  {
    hide DetectCompression, IsControl, IsData;
    NotBoth(ms[|ms| - 1].name);
    if k < |ms| - 1 {
      LastDataWins(files, ms[..|ms| - 1], k);
    }
  }

  /** Without such a member nothing is reported; other files are never touched. */
  lemma {:induction false} OthersUntouched(files: Files, ms: seq<Member>)
    ensures PartsOf(ms).controlTar == "" <==> forall k :: 0 <= k < |ms| ==> !IsControl(ms[k].name)
    ensures PartsOf(ms).dataTar == "" <==> forall k :: 0 <= k < |ms| ==> !IsData(ms[k].name)
    ensures forall f :: !IsControl(f) && !IsData(f) ==>
                          (f in files <==> f in Written(files, ms)) && (f in files ==> Written(files, ms)[f] == files[f])
  {
    hide DetectCompression, IsControl, IsData;
    if ms != [] {
      NotBoth(ms[|ms| - 1].name);
      OthersUntouched(files, ms[..|ms| - 1]);
    }
  }

  // ----- a lost end -----

  /** Extracting an archive of one kept member, when the file is cut short as it is closed: the
      call succeeds, and the file lacks its end. */
  method LostEnd(m: ArMember, dir: OutputDir) returns (ok: bool, readErrors: nat)
    requires WellFormed(m) && IsControl(m.name)
    modifies dir
    ensures readErrors == 0 ==> ok == (dir.faults == old(dir.faults))
    ensures ok && readErrors == 0 && dir.lost > old(dir.lost) ==>
              m.name in dir.files && dir.files[m.name] < m.data
  {
    hide WellFormed, EncodeArchive, DecodeArchive, Written, IsControl, IsData, Shortened, OthersKept, DistinctFiles;
    ArchiveRoundTrip([m], "");
    OneMember(m);
    assert EncodeArchive([m]) + "" == EncodeArchive([m]);
    ghost var files := dir.files;
    var parts;
    ghost var taken;
    ok, parts, readErrors, taken := ExtractDebArchive(EncodeArchive([m]), dir);
    if ok && readErrors == 0 {
      OneFile(files, dir.files, Member(m.name, m.data));
    }
  }

  lemma OneMember(m: ArMember)
    ensures Contents([m]) == [Member(m.name, m.data)] && DistinctFiles([Member(m.name, m.data)])
  {
    hide IsControl, IsData;
  }

  lemma OneFile(before: Files, after: Files, m: Member)
    requires IsControl(m.name) && Shortened(after, Written(before, [m])) && OthersKept(after, before, [m])
    ensures m.name in after && after[m.name] <= m.data
    ensures after[m.name] == m.data ==> after == Written(before, [m])
  {
    hide IsControl, IsData;
    NothingWritten(before);
    StepMembers(before, [], m);
    assert [] + [m] == [m];
    var meant := Written(before, [m]);
    assert meant == before[m.name := m.data];
    if after[m.name] == m.data {
      forall f
        ensures SameFile(after, meant, f)
      {
        if f != m.name {
          assert !Stores([m], f) && SameFile(after, before, f);
        }
      }
      SameFiles(after, meant);
    }
  }

  // ----- names and bytes of a Debian package -----

  /** The ending of a member name for each kind of compression. */
  function Extension(c: Compression): string {
    match c
    case Plain => ""
    case Gzip => ".gz"
    case Xz => ".xz"
    case Bzip2 => ".bz2"
  }

  lemma EndsWithIts(base: string, c: Compression)
    ensures EndsWith(base + Extension(c), Extension(c))
  {
  }

  /** Compression is told by the ending, whatever the name. */
  lemma ExtensionDecides(base: string, c: Compression)
    ensures c != Plain ==> DetectCompression(base + Extension(c)) == c
    ensures base == "control.tar" || base == "data.tar" ==> DetectCompression(base) == Plain
    ensures DetectCompression(base) == Plain <==> !(EndsWith(base, ".gz") || EndsWith(base, ".xz") || EndsWith(base, ".bz2"))
  {
    var s := base + Extension(c);
    EndsWithIts(base, c);
    if c != Plain {
      assert s[|s| - 1] == Extension(c)[|Extension(c)| - 1] && s[|s| - 2] == Extension(c)[|Extension(c)| - 2];
    }
  }

  lemma StandardNames(ext: string)
    ensures IsControl("control.tar" + ext) && IsData("data.tar" + ext)
    ensures !IsControl("debian-binary") && !IsData("debian-binary")
  {
    var c, d := "control.tar" + ext, "data.tar" + ext;
    assert c[..11] == "control.tar" && d[..8] == "data.tar";
    assert "debian-binary"[1] == 'e';
  }

  /** What the three members of a Debian package leave: the two tars under their names, with
      the compression of their endings. */
  lemma StandardPackage(files: Files, version: string, control: string, cc: Compression, data: string, dc: Compression)
    ensures var c, d := "control.tar" + Extension(cc), "data.tar" + Extension(dc);
            var ms := [Member("debian-binary", version)] + [Member(c, control)] + [Member(d, data)];
            && PartsOf(ms) == DebParts(c, cc, d, dc)
            && Written(files, ms) == files[c := control][d := data]
  {
    var c, d := "control.tar" + Extension(cc), "data.tar" + Extension(dc);
    var v := Member("debian-binary", version);
    StandardNames(Extension(cc));
    StandardNames(Extension(dc));
    ExtensionDecides("control.tar", cc);
    ExtensionDecides("data.tar", dc);
    assert "control.tar" + "" == "control.tar" && "data.tar" + "" == "data.tar";
    NotBoth(c);
    NotBoth(d);
    hide IsControl, IsData, DetectCompression;
    NothingWritten(files);
    StepMembers(files, [], v);
    assert [] + [v] == [v];
    StepMembers(files, [v], Member(c, control));
    StepMembers(files, [v] + [Member(c, control)], Member(d, data));
  }

  lemma TenSpaces()
    ensures Spaces(9) == "         " && Spaces(1) == " "
  {
    assert Spaces(3) == "   ";
    assert Spaces(6) == "      ";
  }

  /** The bytes of an archive with one member of three bytes. */
  lemma ArchiveBytes(meta: string, pad: char)
    requires |meta| == 32
    ensures var m := ArMember("control.tar.gz", true, meta, "abc", pad);
            && WellFormed(m)
            && EncodeArchive([m]) ==
               "!<arch>\n" + ("control.tar.gz/ " + meta + "3         " + "`\n" + ("abc" + ([pad] + "")))
  {
    hide Spaces;
    var m := ArMember("control.tar.gz", true, meta, "abc", pad);
    TenSpaces();
    assert Decimal(3) == "3";
    assert Label(m) + Spaces(1) == "control.tar.gz/ ";
    assert "3" + Spaces(9) == "3         ";
    assert Encode([m][1..]) == "";
  }
}
