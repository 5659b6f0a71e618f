/** The package-info JSON of manually installed packages: a hand-written parser and printer. */
module ManualPackage {
  import opened Wrappers
  import opened Text

  datatype PackageInfo = PackageInfo(
    name: string,
    version: string,
    installTime: nat,
    prefix: string,
    installedFiles: seq<string>)

  const EMPTY_INFO := PackageInfo("", "", 0, "", [])

  // ----- the accepted language, on the input still to be read -----

  predicate IsJsonSpace(c: char) { c == ' ' || c == '\n' || c == '\t' || c == '\r' }

  function SkipSpace(s: string): (r: string)
    ensures |r| <= |s| && (r == "" || !IsJsonSpace(r[0]))
    ensures s == "" || !IsJsonSpace(s[0]) ==> r == s
  {
    if s != "" && IsJsonSpace(s[0]) then SkipSpace(s[1..]) else s
  }

  predicate At(s: string, c: char) { s != "" && s[0] == c }

  function Escaped(c: char): Option<char> {
    match c
    case '"' => Some('"')
    case '\\' => Some('\\')
    case '/' => Some('/')
    case 'b' => Some('\U{0008}')
    case 'f' => Some('\U{000C}')
    case 'n' => Some('\n')
    case 'r' => Some('\r')
    case 't' => Some('\t')
    case _ => None
  }

  function Prepend<T>(x: T, p: Parsed<seq<T>>): Parsed<seq<T>> {
    match p
    case Reject => Reject
    case Accept(xs, rest) => Accept([x] + xs, rest)
  }

  /** The rest of a string whose opening quote was read. */
  function StringBody(s: string): (r: Parsed<string>)
    ensures r.Accept? ==> |r.rest| < |s|
    decreases |s|
  {
    if s == "" then Reject
    else if s[0] == '"' then Accept("", s[1..])
    else if s[0] != '\\' then Prepend(s[0], StringBody(s[1..]))
    else if |s| == 1 then Reject
    else
      match Escaped(s[1])
      case None => Reject
      case Some(c) => Prepend(c, StringBody(s[2..]))
  }

  function JsonString(s: string): (r: Parsed<string>)
    ensures r.Accept? ==> |r.rest| < |s|
  {
    var t := SkipSpace(s);
    if At(t, '"') then StringBody(t[1..]) else Reject
  }

  /** Exactly the digit runs whose value fits into 64 bits. */
  function Uint64(s: string): (r: Parsed<nat>)
    ensures r.Accept? ==> |r.rest| < |s|
  {
    var t := SkipSpace(s);
    var run := DigitRun(t);
    if run == "" || NumberOf(run) > ULONG_MAX then Reject else Accept(NumberOf(run), t[|run|..])
  }

  /** The elements of a non-empty array, up to and including the closing bracket. */
  function Elements(s: string): (r: Parsed<seq<string>>)
    ensures r.Accept? ==> |r.rest| < |s|
    decreases |s|
  {
    match JsonString(s)
    case Reject => Reject
    case Accept(v, rest) =>
      var t := SkipSpace(rest);
      if At(t, ',') then Prepend(v, Elements(t[1..]))
      else if At(t, ']') then Accept([v], t[1..])
      else Reject
  }

  function StringArray(s: string): (r: Parsed<seq<string>>)
    ensures r.Accept? ==> |r.rest| < |s|
  {
    var t := SkipSpace(s);
    if !At(t, '[') then Reject
    else
      var u := SkipSpace(t[1..]);
      if At(u, ']') then Accept([], u[1..]) else Elements(u)
  }

  predicate NumberChar(c: char) { IsDigit(c) || c == '.' || c == 'e' || c == 'E' || c == '+' || c == '-' }

  function SkipNumberChars(s: string): (r: string)
    ensures |r| <= |s|
  {
    if s != "" && NumberChar(s[0]) then SkipNumberChars(s[1..]) else s
  }

  function SkipNumber(s: string): (r: Option<string>)
    ensures r.Some? ==> |r.value| < |s|
  {
    var t := SkipSpace(s);
    var u := if At(t, '-') || At(t, '+') then t[1..] else t;
    var v := SkipNumberChars(u);
    if |v| == |u| then None else Some(v)
  }

  function SkipLiteral(s: string, literal: string): (r: Option<string>)
    ensures r.Some? && literal != "" ==> |r.value| < |s|
  {
    if literal <= s then Some(s[|literal|..]) else None
  }

  /** The input after one JSON value of any kind. */
  function SkipValue(s: string): (r: Option<string>)
    ensures r.Some? ==> |r.value| < |s|
    decreases |s|, 0
  {
    var t := SkipSpace(s);
    if At(t, '"') then
      match JsonString(t) { case Reject => None case Accept(_, rest) => Some(rest) }
    else if At(t, '{') then
      var u := SkipSpace(t[1..]);
      if At(u, '}') then Some(u[1..]) else SkipMembers(u)
    else if At(t, '[') then
      var u := SkipSpace(t[1..]);
      if At(u, ']') then Some(u[1..]) else SkipItems(u)
    else if At(t, 't') then SkipLiteral(t, "true")
    else if At(t, 'f') then SkipLiteral(t, "false")
    else if At(t, 'n') then SkipLiteral(t, "null")
    else if t != "" && (t[0] == '-' || t[0] == '+' || IsDigit(t[0])) then SkipNumber(t)
    else None
  }

  function SkipMembers(s: string): (r: Option<string>)
    ensures r.Some? ==> |r.value| < |s|
    decreases |s|, 1
  {
    match JsonString(s)
    case Reject => None
    case Accept(_, rest) =>
      var t := SkipSpace(rest);
      if !At(t, ':') then None
      else
        match SkipValue(t[1..])
        case None => None
        case Some(after) =>
          var u := SkipSpace(after);
          if At(u, '}') then Some(u[1..])
          else if At(u, ',') then SkipMembers(u[1..])
          else None
  }

  function SkipItems(s: string): (r: Option<string>)
    ensures r.Some? ==> |r.value| < |s|
    decreases |s|, 1
  {
    match SkipValue(s)
    case None => None
    case Some(after) =>
      var u := SkipSpace(after);
      if At(u, ']') then Some(u[1..])
      else if At(u, ',') then SkipItems(u[1..])
      else None
  }

  /** The value of one field, stored into the record. */
  function Field(key: string, s: string, info: PackageInfo): (r: Parsed<PackageInfo>)
    ensures r.Accept? ==> |r.rest| < |s|
  {
    if key == "package" then
      match JsonString(s) { case Reject => Reject case Accept(v, rest) => Accept(info.(name := v), rest) }
    else if key == "version" then
      match JsonString(s) { case Reject => Reject case Accept(v, rest) => Accept(info.(version := v), rest) }
    else if key == "prefix" then
      match JsonString(s) { case Reject => Reject case Accept(v, rest) => Accept(info.(prefix := v), rest) }
    else if key == "install_time" then
      match Uint64(s) { case Reject => Reject case Accept(v, rest) => Accept(info.(installTime := v), rest) }
    else if key == "installed_files" then
      match StringArray(s)
      case Reject => Reject
      case Accept(v, rest) => Accept(info.(installedFiles := info.installedFiles + v), rest)
    else
      match SkipValue(s) { case None => Reject case Some(rest) => Accept(info, rest) }
  }

  /** The fields of the object, up to and including its closing brace. */
  function Fields(s: string, info: PackageInfo, first: bool): (r: Parsed<PackageInfo>)
    decreases |s|
  {
    var t := SkipSpace(s);
    if At(t, '}') then Accept(info, t[1..])
    else if !first && !At(t, ',') then Reject
    else
      match JsonString(if first then t else SkipSpace(t[1..]))
      case Reject => Reject
      case Accept(key, rest) =>
        var u := SkipSpace(rest);
        if !At(u, ':') then Reject
        else
          match Field(key, SkipSpace(u[1..]), info)
          case Reject => Reject
          case Accept(more, after) => Fields(after, more, false)
  }

  /** Meaning of the parser on a whole text; what follows the object is not looked at. */
  function InfoOf(json: string): Option<PackageInfo> {
    var t := SkipSpace(json);
    if !At(t, '{') then None
    else
      match Fields(t[1..], EMPTY_INFO, true)
      case Reject => None
      case Accept(info, _) => if info.name == "" || info.prefix == "" then None else Some(info)
  }

  // ----- the parser -----

  class JsonParser {
    const data: string
    var pos: nat

    constructor (input: string)
      ensures data == input && Valid() && Rest() == input
    {
      data := input;
      pos := 0;
      new;
      assert data[0..] == data;
    }

    ghost predicate Valid()
      reads this
    {
      pos <= |data|
    }

    function Rest(): string
      requires Valid()
      reads this
    {
      data[pos..]
    }

    method SkipWhitespace()
      requires Valid()
      modifies this
      ensures Valid() && Rest() == SkipSpace(old(Rest()))
    {
      while pos < |data|
        invariant Valid() && SkipSpace(Rest()) == SkipSpace(old(Rest()))
      {
        var c := data[pos];
        if c == ' ' || c == '\n' || c == '\t' || c == '\r' {
          RestNext();
          pos := pos + 1;
        } else {
          break;
        }
      }
    }

    lemma RestNext()
      requires Valid() && pos < |data|
      ensures Rest()[1..] == data[pos + 1..] && Rest()[0] == data[pos]
    {
    }

    lemma RestAfter(k: nat)
      requires Valid() && pos + k <= |data|
      ensures Rest()[k..] == data[pos + k..]
    {
    }

    lemma RestParts()
      requires Valid() && pos < |data|
      ensures Rest() != "" && Rest()[0] == data[pos] && Rest()[1..] == data[pos + 1..]
      ensures if pos + 1 < |data| then |Rest()| > 1 && Rest()[1] == data[pos + 1] && Rest()[2..] == data[pos + 2..]
              else |Rest()| == 1
    {
    }

    method Peek(c: char) returns (yes: bool)
      requires Valid()
      ensures yes == At(Rest(), c)
    {
      yes := pos < |data| && data[pos] == c;
    }

    method Advance()
      requires Valid()
      modifies this
      ensures Valid() && Rest() == if old(Rest()) == "" then "" else old(Rest())[1..]
    {
      if pos < |data| {
        RestNext();
        pos := pos + 1;
      }
    }

    method Consume(expected: char) returns (ok: bool)
      requires Valid()
      modifies this
      ensures Valid() && ok == At(SkipSpace(old(Rest())), expected)
      ensures ok ==> Rest() == SkipSpace(old(Rest()))[1..]
    {
      SkipWhitespace();
      ok := Peek(expected);
      if ok {
        Advance();
      }
    }

    method ParseString() returns (ok: bool, out: string)
      requires Valid()
      modifies this
      ensures Valid()
      ensures match JsonString(old(Rest()))
              case Reject => !ok
              case Accept(v, rest) => ok && out == v && Rest() == rest
    {
      hide SkipSpace, StringBody, Escaped, PrependAll;
      out := "";
      SkipWhitespace();
      ok := Peek('"');
      if !ok {
        return;
      }
      Advance();
      ghost var body := Rest();
      PrependNothing(StringBody(body));
      while pos < |data|
        invariant Valid() && StringBody(body) == PrependAll(out, StringBody(Rest()))
      {
        BodyStep(out, Rest());
        RestParts();
        var c := data[pos];
        pos := pos + 1;
        if c == '"' {
          return;
        }
        if c == '\\' {
          if pos >= |data| {
            ok := false;
            return;
          }
          var esc := data[pos];
          pos := pos + 1;
          match Escaped(esc) {
            case None =>
              ok := false;
              return;
            case Some(r) =>
              out := out + [r];
          }
        } else {
          out := out + [c];
        }
      }
      BodyStops(out);
      ok := false;
    }

    method ParseUint64() returns (ok: bool, out: nat)
      requires Valid()
      modifies this
      ensures Valid()
      ensures match Uint64(old(Rest()))
              case Reject => !ok
              case Accept(v, rest) => ok && out == v && Rest() == rest
    {
      hide SkipSpace, DigitRun, NumberOf, RunSplit, Overflows;
      out := 0;
      SkipWhitespace();
      ghost var t := Rest();
      RunBegins(t);
      if pos >= |data| || !IsDigit(data[pos]) {
        return false, 0;
      }
      ghost var run := "";
      while pos < |data| && IsDigit(data[pos])
        invariant Valid() && RunSplit(t, run, Rest(), out) && out <= ULONG_MAX
      {
        var digit := DigitValue(data[pos]);
        RestNext();
        RunNext(t, run, Rest(), out);
        OverflowIff(out, digit);
        if Overflows(out, digit) {
          return false, 0;
        }
        run := run + [data[pos]];
        out := out * 10 + digit;
        pos := pos + 1;
      }
      RunEnds(t, run, Rest(), out);
      ok := true;
    }

    method ParseStringArray() returns (ok: bool, out: seq<string>)
      requires Valid()
      modifies this
      ensures Valid()
      ensures match StringArray(old(Rest()))
              case Reject => !ok
              case Accept(v, rest) => ok && out == v && Rest() == rest
    {
      hide SkipSpace, JsonString, Elements, At;
      out := [];
      SkipWhitespace();
      ok := Consume('[');
      if !ok {
        return;
      }
      SkipWhitespace();
      var close := Peek(']');
      if close {
        AdvanceAt(']');
        return;
      }
      ghost var start := Rest();
      PrependNothing(Elements(start));
      while true
        invariant Valid() && Elements(start) == PrependAll(out, Elements(Rest()))
        decreases |Rest()|
      {
        ghost var before := Rest();
        ElementsStep(out, before);
        var entry;
        ok, entry := ParseString();
        if !ok {
          return;
        }
        out := out + [entry];
        SkipWhitespace();
        var comma := Peek(',');
        if comma {
          AdvanceAt(',');
          continue;
        }
        close := Peek(']');
        if close {
          AdvanceAt(']');
          return;
        }
        ok := false;
        return;
      }
    }

    method AdvanceAt(ghost c: char)
      requires Valid() && At(Rest(), c)
      modifies this
      ensures Valid() && Rest() == old(Rest())[1..] && |Rest()| < old(|Rest()|)
    {
      Advance();
    }

    method TakeLiteral(literal: string) returns (ok: bool)
      requires Valid()
      modifies this
      ensures Valid()
      ensures match SkipLiteral(old(Rest()), literal)
              case None => !ok
              case Some(rest) => ok && Rest() == rest
    {
      ok := literal <= data[pos..];
      if ok {
        RestAfter(|literal|);
        pos := pos + |literal|;
      }
    }

    method TakeNumber() returns (ok: bool)
      requires Valid()
      modifies this
      ensures Valid()
      ensures match SkipNumber(old(Rest()))
              case None => !ok
              case Some(rest) => ok && Rest() == rest
    {
      hide SkipSpace, SkipNumberChars;
      SkipWhitespace();
      var minus := Peek('-');
      var plus := Peek('+');
      if minus || plus {
        Advance();
      }
      ghost var u := Rest();
      ok := false;
      while pos < |data|
        invariant Valid() && SkipNumberChars(Rest()) == SkipNumberChars(u) && |Rest()| <= |u|
        invariant ok == (|Rest()| < |u|)
      {
        NumberStep(Rest());
        RestNext();
        var c := data[pos];
        if IsDigit(c) {
          ok := true;
          pos := pos + 1;
          continue;
        }
        if c == '.' || c == 'e' || c == 'E' || c == '+' || c == '-' {
          ok := true;
          pos := pos + 1;
          continue;
        }
        return;
      }
      NumberStep(Rest());
    }

    method TakeValue() returns (ok: bool)
      requires Valid()
      modifies this
      ensures Valid()
      ensures match SkipValue(old(Rest()))
              case None => !ok
              case Some(rest) => ok && Rest() == rest
      decreases |Rest()|, 0
    {
      hide SkipSpace, JsonString, SkipNumber;
      SkipWhitespace();
      if pos >= |data| {
        return false;
      }
      RestNext();
      var c := data[pos];
      if c == '"' {
        var tmp;
        ok, tmp := ParseString();
      } else if c == '{' {
        AdvanceAt('{');
        SkipWhitespace();
        ok := Peek('}');
        if ok {
          AdvanceAt('}');
        } else {
          ok := TakeMembers();
        }
      } else if c == '[' {
        AdvanceAt('[');
        SkipWhitespace();
        ok := Peek(']');
        if ok {
          AdvanceAt(']');
        } else {
          ok := TakeItems();
        }
      } else if c == 't' {
        ok := TakeLiteral("true");
      } else if c == 'f' {
        ok := TakeLiteral("false");
      } else if c == 'n' {
        ok := TakeLiteral("null");
      } else if c == '-' || c == '+' || IsDigit(c) {
        ok := TakeNumber();
      } else {
        ok := false;
      }
    }

    /** The member loop of an object. */
    method TakeMembers() returns (ok: bool)
      requires Valid()
      modifies this
      ensures Valid()
      ensures match SkipMembers(old(Rest()))
              case None => !ok
              case Some(rest) => ok && Rest() == rest
      decreases |Rest()|, 1
    {
      hide SkipSpace, JsonString, SkipValue;
      while true
        invariant Valid() && SkipMembers(Rest()) == SkipMembers(old(Rest())) && |Rest()| <= old(|Rest()|)
        decreases |Rest()|
      {
        var tmpKey;
        ok, tmpKey := ParseString();
        if !ok {
          return;
        }
        SkipWhitespace();
        ok := Consume(':');
        if !ok {
          return;
        }
        ok := TakeValue();
        if !ok {
          return;
        }
        SkipWhitespace();
        ok := Peek('}');
        if ok {
          AdvanceAt('}');
          return;
        }
        ok := Consume(',');
        if !ok {
          return;
        }
      }
    }

    /** The element loop of an array. */
    method TakeItems() returns (ok: bool)
      requires Valid()
      modifies this
      ensures Valid()
      ensures match SkipItems(old(Rest()))
              case None => !ok
              case Some(rest) => ok && Rest() == rest
      decreases |Rest()|, 1
    {
      hide SkipSpace, SkipValue;
      while true
        invariant Valid() && SkipItems(Rest()) == SkipItems(old(Rest())) && |Rest()| <= old(|Rest()|)
        decreases |Rest()|
      {
        ok := TakeValue();
        if !ok {
          return;
        }
        SkipWhitespace();
        ok := Peek(']');
        if ok {
          AdvanceAt(']');
          return;
        }
        ok := Consume(',');
        if !ok {
          return;
        }
      }
    }

    method ParseField(key: string, info: PackageInfo) returns (ok: bool, out: PackageInfo)
      requires Valid()
      modifies this
      ensures Valid()
      ensures match Field(key, old(Rest()), info)
              case Reject => !ok
              case Accept(v, rest) => ok && out == v && Rest() == rest
    {
      hide JsonString, Uint64, StringArray, SkipValue;
      out := info;
      var text;
      if key == "package" {
        ok, text := ParseString();
        out := out.(name := text);
      } else if key == "version" {
        ok, text := ParseString();
        out := out.(version := text);
      } else if key == "prefix" {
        ok, text := ParseString();
        out := out.(prefix := text);
      } else if key == "install_time" {
        var time;
        ok, time := ParseUint64();
        out := out.(installTime := time);
      } else if key == "installed_files" {
        var files;
        ok, files := ParseStringArray();
        out := out.(installedFiles := out.installedFiles + files);
      } else {
        ok := TakeValue();
      }
    }

    method ParsePackageInfo() returns (ok: bool, info: PackageInfo)
      requires Valid()
      modifies this
      ensures Valid()
      ensures var t := SkipSpace(old(Rest()));
              match if At(t, '{') then Fields(t[1..], EMPTY_INFO, true) else Reject
              case Reject => !ok
              case Accept(v, rest) => ok && info == v && Rest() == rest
    {
      hide SkipSpace, JsonString, Field;
      info := EMPTY_INFO;
      SkipWhitespace();
      ok := Consume('{');
      if !ok {
        return;
      }
      ghost var start := Rest();
      var firstField := true;
      while true
        invariant Valid() && Fields(start, EMPTY_INFO, true) == Fields(Rest(), info, firstField)
        decreases |Rest()|
      {
        SkipWhitespace();
        ok := Peek('}');
        if ok {
          AdvanceAt('}');
          return;
        }
        if !firstField {
          ok := Consume(',');
          if !ok {
            return;
          }
          SkipWhitespace();
        }
        firstField := false;
        var key;
        ok, key := ParseString();
        if !ok {
          return;
        }
        SkipWhitespace();
        ok := Consume(':');
        if !ok {
          return;
        }
        SkipWhitespace();
        ok, info := ParseField(key, info);
        if !ok {
          return;
        }
      }
    }
  }

  function PrependAll<T>(xs: seq<T>, p: Parsed<seq<T>>): Parsed<seq<T>> {
    match p
    case Reject => Reject
    case Accept(ys, rest) => Accept(xs + ys, rest)
  }

  lemma PrependNothing<T>(p: Parsed<seq<T>>)
    ensures PrependAll([], p) == p
  {
    if p.Accept? {
      assert [] + p.value == p.value;
    }
  }

  lemma PrependPush<T>(out: seq<T>, x: T, p: Parsed<seq<T>>)
    ensures PrependAll(out, Prepend(x, p)) == PrependAll(out + [x], p)
  {
    if p.Accept? {
      assert out + ([x] + p.value) == out + [x] + p.value;
    }
  }

  lemma PrependEnd<T>(out: seq<T>, rest: string)
    ensures PrependAll(out, Accept([], rest)) == Accept(out, rest)
  {
    assert out + [] == out;
  }

  /** One step of the scanning loop. */
  lemma BodyStep(out: string, s: string)
    requires s != ""
    ensures var all := PrependAll(out, StringBody(s));
            if s[0] == '"' then all == Accept(out, s[1..])
            else if s[0] != '\\' then all == PrependAll(out + [s[0]], StringBody(s[1..]))
            else if |s| == 1 || Escaped(s[1]).None? then all == Reject
            else all == PrependAll(out + [Escaped(s[1]).value], StringBody(s[2..]))
  {
    hide PrependAll, Prepend, Escaped;
    if s[0] == '"' {
      PrependEnd(out, s[1..]);
    } else if s[0] != '\\' {
      PrependPush(out, s[0], StringBody(s[1..]));
    } else if |s| == 1 || Escaped(s[1]).None? {
      PrependReject(out);
    } else {
      PrependPush(out, Escaped(s[1]).value, StringBody(s[2..]));
    }
  }

  lemma BodyStops(out: string)
    ensures PrependAll(out, StringBody("")) == Reject
  {
  }

  lemma PrependReject<T>(out: seq<T>)
    ensures PrependAll(out, Reject) == Reject
  {
  }

  /** t is a run of digits already read, of the given value, followed by s, and the run goes
      on into s. */
  ghost predicate RunSplit(t: string, run: string, s: string, value: nat) {
    && |run| <= |t| && s == t[|run|..] && run + DigitRun(s) == DigitRun(t)
    && AllDigits(run) && value == NumberOf(run)
  }

  lemma RunBegins(t: string)
    ensures RunSplit(t, "", t, 0)
    ensures (DigitRun(t) == "") == (t == "" || !IsDigit(t[0]))
  {
    assert t[0..] == t && "" + DigitRun(t) == DigitRun(t);
  }

  lemma RunEnds(t: string, run: string, s: string, value: nat)
    requires RunSplit(t, run, s, value) && (s == "" || !IsDigit(s[0]))
    ensures DigitRun(t) == run && value == NumberOf(DigitRun(t)) && s == t[|run|..]
  {
    RunStep(s);
    assert run + "" == run;
  }

  /** The test before each multiplication. */
  predicate Overflows(value: nat, digit: nat) { value > (ULONG_MAX - digit) / 10 }

  /** It catches exactly the values that do not fit. */
  lemma OverflowIff(value: nat, digit: nat)
    requires digit < 10
    ensures Overflows(value, digit) <==> value * 10 + digit > ULONG_MAX
  {
  }

  /** The value of a run never falls as digits are added. */
  lemma {:induction false} NumberGrows(a: string, b: string)
    requires AllDigits(a) && AllDigits(b)
    ensures AllDigits(a + b) && NumberOf(a) <= NumberOf(a + b)
  {
    if b == "" {
      assert a + b == a;
    } else {
      var init := b[..|b| - 1];
      NumberGrows(a, init);
      assert (a + b)[..|a + b| - 1] == a + init;
    }
  }

  lemma RunGrows(run: string, c: char, more: string)
    requires AllDigits(run) && IsDigit(c) && AllDigits(more)
    ensures AllDigits(run + [c]) && AllDigits(run + [c] + more)
    ensures NumberOf(run + [c]) == 10 * NumberOf(run) + DigitValue(c) <= NumberOf(run + [c] + more)
  {
    assert (run + [c])[..|run|] == run;
    NumberGrows(run + [c], more);
  }

  /** One more digit of the run. */
  lemma RunNext(t: string, run: string, s: string, value: nat)
    requires RunSplit(t, run, s, value) && s != "" && IsDigit(s[0])
    ensures RunSplit(t, run + [s[0]], s[1..], value * 10 + DigitValue(s[0]))
    ensures value * 10 + DigitValue(s[0]) <= NumberOf(DigitRun(t))
  {
    hide NumberOf, DigitRun;
    RunStep(s);
    ConcatAssoc(run, [s[0]], DigitRun(s[1..]));
    RunGrows(run, s[0], DigitRun(s[1..]));
    assert t[|run|..][1..] == t[|run| + 1..];
  }

  lemma NumberStep(s: string)
    ensures SkipNumberChars(s) == if s != "" && NumberChar(s[0]) then SkipNumberChars(s[1..]) else s
  {
  }

  /** One step of the array loop. */
  lemma ElementsStep(out: seq<string>, s: string)
    ensures var all := PrependAll(out, Elements(s));
            match JsonString(s)
            case Reject => all == Reject
            case Accept(v, rest) =>
              var t := SkipSpace(rest);
              if At(t, ',') then all == PrependAll(out + [v], Elements(t[1..]))
              else if At(t, ']') then all == Accept(out + [v], t[1..])
              else all == Reject
  {
    hide JsonString, SkipSpace;
    match JsonString(s)
    case Reject =>
    case Accept(v, rest) =>
      var t := SkipSpace(rest);
      if At(t, ',') {
        PrependPush(out, v, Elements(t[1..]));
      }
  }

  method ParsePackageInfo(json: string) returns (ok: bool, info: PackageInfo)
    ensures ok == InfoOf(json).Some?
    ensures ok ==> info == InfoOf(json).value
  {
    var parser := new JsonParser(json);
    ok, info := parser.ParsePackageInfo();
    if !ok {
      return;
    }
    if info.name == "" {
      return false, info;
    }
    if info.prefix == "" {
      return false, info;
    }
  }

  // ----- printer -----

  function EscapeJsonChar(c: char): string {
    match c
    case '\\' => "\\\\"
    case '"' => "\\\""
    case '\U{0008}' => "\\b"
    case '\U{000C}' => "\\f"
    case '\n' => "\\n"
    case '\r' => "\\r"
    case '\t' => "\\t"
    case _ => [c]
  }

  function EscapeJson(s: string): string {
    if s == "" then "" else EscapeJsonChar(s[0]) + EscapeJson(s[1..])
  }

  lemma EscapeNext(s: string, i: nat)
    requires i < |s|
    ensures EscapeJson(s[i..]) == EscapeJsonChar(s[i]) + EscapeJson(s[i + 1..])
  {
    assert s[i..][1..] == s[i + 1..];
  }

  lemma EscapeEnds(s: string)
    ensures "" + EscapeJson(s[0..]) == EscapeJson(s) && EscapeJson(s[|s|..]) == ""
  {
    assert s[0..] == s;
  }

  method EscapeJsonString(input: string) returns (out: string)
    ensures out == EscapeJson(input)
  {
    hide EscapeJson, EscapeJsonChar;
    out := "";
    EscapeEnds(input);
    for i := 0 to |input|
      invariant out + EscapeJson(input[i..]) == EscapeJson(input)
    {
      EscapeNext(input, i);
      ConcatAssoc(out, EscapeJsonChar(input[i]), EscapeJson(input[i + 1..]));
      var piece := EscapedPiece(input[i]);
      out := out + piece;
    }
  }

  method EscapedPiece(c: char) returns (piece: string)
    ensures piece == EscapeJsonChar(c)
  {
    match c {
      case '\\' => piece := "\\\\";
      case '"' => piece := "\\\"";
      case '\U{0008}' => piece := "\\b";
      case '\U{000C}' => piece := "\\f";
      case '\n' => piece := "\\n";
      case '\r' => piece := "\\r";
      case '\t' => piece := "\\t";
      case _ => piece := [c];
    }
  }

  function Quoted(s: string): string { "\"" + EscapeJson(s) + "\"" }

  /** One member of the object: what separates it from the text before, its key, its value. */
  function Member(lead: string, key: string, value: string): string {
    lead + "  \"" + key + "\": " + value
  }

  const FIRST := "\n"
  const NEXT := ",\n"
  const END := "  ]\n}\n"

  /** The file list, one per line, followed by `end`. */
  function FilesText(files: seq<string>, end: string): string {
    if files == [] then end
    else "    " + (Quoted(files[0]) + (Separator(files) + FilesText(files[1..], end)))
  }

  function Separator(files: seq<string>): string { if |files| > 1 then ",\n" else "\n" }

  function FilesTail(i: PackageInfo): string { Member(NEXT, "installed_files", "[\n" + FilesText(i.installedFiles, END)) }

  function PrefixTail(i: PackageInfo): string { Member(NEXT, "prefix", Quoted(i.prefix) + FilesTail(i)) }

  function TimeTail(i: PackageInfo): string { Member(NEXT, "install_time", Decimal(i.installTime) + PrefixTail(i)) }

  function VersionTail(i: PackageInfo): string { Member(NEXT, "version", Quoted(i.version) + TimeTail(i)) }

  /** The canonical text of a record. */
  function Serialized(i: PackageInfo): string { "{" + Member(FIRST, "package", Quoted(i.name) + VersionTail(i)) }

  method AppendMember(out: string, lead: string, key: string, value: string, ghost tail: string) returns (r: string)
    ensures r == out + Member(lead, key, value) && out + Member(lead, key, value + tail) == r + tail
  {
    r := out + Member(lead, key, value);
    ghost var head := lead + "  \"" + key + "\": ";
    ConcatAssoc(head, value, tail);
    ConcatAssoc(out, head + value, tail);
  }

  method QuotedText(s: string) returns (r: string)
    ensures r == Quoted(s)
  {
    var e := EscapeJsonString(s);
    r := "\"" + e + "\"";
  }

  method SerializePackageInfo(info: PackageInfo) returns (out: string)
    ensures out == Serialized(info)
  {
    hide Member, Quoted, FilesText;
    out := "{";
    var text := QuotedText(info.name);
    out := AppendMember(out, FIRST, "package", text, VersionTail(info));
    text := QuotedText(info.version);
    out := AppendMember(out, NEXT, "version", text, TimeTail(info));
    out := AppendMember(out, NEXT, "install_time", Decimal(info.installTime), PrefixTail(info));
    text := QuotedText(info.prefix);
    out := AppendMember(out, NEXT, "prefix", text, FilesTail(info));
    out := AppendMember(out, NEXT, "installed_files", "[\n", FilesText(info.installedFiles, END));
    out := AppendFiles(out, info.installedFiles);
  }

  method AppendFiles(text: string, files: seq<string>) returns (out: string)
    ensures out == text + FilesText(files, END)
  {
    hide Quoted, FilesText;
    out := text;
    FilesEnds(files);
    for i := 0 to |files|
      invariant out + FilesText(files[i..], END) == text + FilesText(files, END)
    {
      FilesNext(files, i);
      var entry := QuotedText(files[i]);
      var separator := if i + 1 < |files| then ",\n" else "\n";
      ConcatAssoc(out, "    ", entry + (separator + FilesText(files[i + 1..], END)));
      out := out + "    ";
      ConcatAssoc(out, entry, separator + FilesText(files[i + 1..], END));
      out := out + entry;
      ConcatAssoc(out, separator, FilesText(files[i + 1..], END));
      out := out + separator;
    }
    out := out + "  ]\n";
    out := out + "}\n";
  }

  lemma FilesNext(files: seq<string>, i: nat)
    requires i < |files|
    ensures FilesText(files[i..], END) ==
            "    " + (Quoted(files[i]) + ((if i + 1 < |files| then ",\n" else "\n") + FilesText(files[i + 1..], END)))
  {
    hide Quoted;
    assert files[i..][1..] == files[i + 1..];
  }

  lemma FilesEnds(files: seq<string>)
    ensures files[0..] == files && FilesText(files[|files|..], END) == END
  {
  }

  // ----- round trip -----

  lemma EscapedPair(c: char)
    ensures var e := EscapeJsonChar(c);
            || (e == [c] && c != '"' && c != '\\')
            || (|e| == 2 && e[0] == '\\' && Escaped(e[1]) == Some(c))
  {
  }

  lemma BodyStart(c: char, rest: string)
    ensures StringBody(EscapeJsonChar(c) + rest) == Prepend(c, StringBody(rest))
  {
    hide EscapeJsonChar, Escaped, Prepend;
    EscapedPair(c);
    var e := EscapeJsonChar(c) + rest;
    if |EscapeJsonChar(c)| == 2 {
      assert e[2..] == rest;
    } else {
      assert e[1..] == rest;
    }
  }

  lemma BodyEnd(rest: string)
    ensures StringBody("\"" + rest) == Accept("", rest)
  {
    assert ("\"" + rest)[1..] == rest;
  }

  /** Every string, whatever its characters, is read back from its escaped form. */
  lemma {:induction false} EscapedIsRead(v: string, rest: string)
    ensures StringBody(EscapeJson(v) + ("\"" + rest)) == Accept(v, rest)
  {
    hide StringBody, EscapeJsonChar;
    var tail := "\"" + rest;
    if v == "" {
      assert EscapeJson(v) + tail == tail;
      BodyEnd(rest);
    } else {
      EscapedIsRead(v[1..], rest);
      BodyStart(v[0], EscapeJson(v[1..]) + tail);
      ConcatAssoc(EscapeJsonChar(v[0]), EscapeJson(v[1..]), tail);
      assert [v[0]] + v[1..] == v;
    }
  }

  /** The two-character text of an escape, in quotes. */
  function QuotedEscape(e: char): string { "\"" + ("\\" + ([e] + "\"")) }

  lemma EscapeShape(e: char)
    ensures SkipSpace(QuotedEscape(e)) == QuotedEscape(e) && At(QuotedEscape(e), '"')
    ensures var t := QuotedEscape(e)[1..]; |t| == 3 && t[0] == '\\' && t[1] == e && t[2..] == "\""
  {
  }

  /** The escapes: a quote, backslash or slash for itself, and five control characters. */
  lemma EscapeIsRead(e: char, c: char)
    requires (e == c && (c == '"' || c == '\\' || c == '/')) || (e == 'n' && c == '\n') || (e == 'r' && c == '\r')
             || (e == 't' && c == '\t') || (e == 'b' && c == '\U{0008}') || (e == 'f' && c == '\U{000C}')
    ensures JsonString(QuotedEscape(e)) == Accept([c], "")
  {
    hide SkipSpace, QuotedEscape;
    EscapeShape(e);
    BodyEnd("");
    assert "\"" + "" == "\"" && [c] + "" == [c];
  }

  /** Any other, a \u one included, is refused. */
  lemma OtherEscapeRefused(e: char)
    requires e != '"' && e != '\\' && e != '/' && e != 'b' && e != 'f' && e != 'n' && e != 'r' && e != 't'
    ensures JsonString(QuotedEscape(e)) == Reject
  {
    hide SkipSpace, QuotedEscape;
    EscapeShape(e);
  }

  lemma QuotedIsRead(v: string, rest: string)
    ensures JsonString(Quoted(v) + rest) == Accept(v, rest)
    ensures At(Quoted(v) + rest, '"')
  {
    hide StringBody, EscapeJson;
    EscapedIsRead(v, rest);
    var s := Quoted(v) + rest;
    assert s[0] == '"' && s[1..] == EscapeJson(v) + ("\"" + rest);
  }

  lemma {:induction false} SpacesSkipped(ws: string, s: string)
    requires forall i :: 0 <= i < |ws| ==> IsJsonSpace(ws[i])
    ensures SkipSpace(ws + s) == SkipSpace(s)
  {
    if ws == "" {
      assert ws + s == s;
    } else {
      assert (ws + s)[1..] == ws[1..] + s;
      SpacesSkipped(ws[1..], s);
    }
  }

  predicate PlainKey(k: string) { forall i :: 0 <= i < |k| ==> 'a' <= k[i] <= 'z' || k[i] == '_' }

  lemma {:induction false} PlainKeyEscapes(k: string)
    requires PlainKey(k)
    ensures EscapeJson(k) == k
  {
    if k != "" {
      PlainKeyEscapes(k[1..]);
      assert [k[0]] + k[1..] == k;
    }
  }

  lemma MemberShape(lead: string, key: string, value: string)
    requires PlainKey(key)
    ensures Member(lead, key, value) == lead + ("  " + (Quoted(key) + (":" + (" " + value))))
  {
    PlainKeyEscapes(key);
  }

  lemma LeadSkipped(first: bool, s: string)
    ensures var t := SkipSpace((if first then FIRST else NEXT) + ("  " + s));
            if first then t == SkipSpace(s) else At(t, ',') && SkipSpace(t[1..]) == SkipSpace(s)
  {
    hide SkipSpace;
    SpacesSkipped("  ", s);
    if first {
      SpacesSkipped(FIRST, "  " + s);
    } else {
      var u := NEXT + ("  " + s);
      SpacesSkipped("\n", "  " + s);
      assert u[0] == ',' && u[1..] == "\n" + ("  " + s);
      NoSpace(u);
    }
  }

  lemma NoSpace(s: string)
    requires s != "" && !IsJsonSpace(s[0])
    ensures SkipSpace(s) == s
  {
  }

  /** Reading one printed member of the object. */
  lemma MemberIsRead(first: bool, key: string, value: string, info: PackageInfo)
    requires PlainKey(key) && value != "" && !IsJsonSpace(value[0])
    ensures Fields(Member(if first then FIRST else NEXT, key, value), info, first) ==
            match Field(key, value, info)
            case Reject => Reject
            case Accept(more, after) => Fields(after, more, false)
  {
    hide SkipSpace, JsonString, Field, Quoted, Member;
    var colon := ":" + (" " + value);
    MemberShape(if first then FIRST else NEXT, key, value);
    LeadSkipped(first, Quoted(key) + colon);
    QuotedIsRead(key, colon);
    NoSpace(Quoted(key) + colon);
    NoSpace(colon);
    assert colon[1..] == " " + value;
    SpacesSkipped(" ", value);
    NoSpace(value);
  }

  /** A digit run is accepted exactly when its value fits into 64 bits. */
  lemma NumberIsRead(digits: string, rest: string)
    requires digits != "" && AllDigits(digits) && (rest == "" || !IsDigit(rest[0]))
    ensures Uint64(digits + rest) == if NumberOf(digits) <= ULONG_MAX then Accept(NumberOf(digits), rest) else Reject
  {
    hide DigitRun, NumberOf;
    assert digits[0] in digits;
    NoSpace(digits + rest);
    RunOf(digits, rest);
    assert (digits + rest)[|digits|..] == rest;
  }

  lemma FilesStart(files: seq<string>)
    requires files != []
    ensures SkipSpace(FilesText(files, END)) == Quoted(files[0]) + (Separator(files) + FilesText(files[1..], END))
  {
    hide SkipSpace, Quoted;
    var entry := Quoted(files[0]) + (Separator(files) + FilesText(files[1..], END));
    SpacesSkipped("    ", entry);
    assert entry[0] == '"' by { QuotedIsRead(files[0], Separator(files) + FilesText(files[1..], END)); }
    NoSpace(entry);
  }

  lemma EndReached(lead: string)
    requires lead == "" || lead == "\n"
    ensures var t := SkipSpace(lead + END); At(t, ']') && t[1..] == "\n}\n"
  {
    hide SkipSpace;
    SpacesSkipped(lead, END);
    SpacesSkipped("  ", "]\n}\n");
    assert END == "  " + "]\n}\n";
    NoSpace("]\n}\n");
    assert "]\n}\n"[1..] == "\n}\n";
  }

  lemma StringAfterSpace(s: string)
    ensures JsonString(s) == JsonString(SkipSpace(s))
  {
    hide StringBody;
  }

  lemma CommaReached(s: string)
    ensures var t := SkipSpace(",\n" + s); At(t, ',') && SkipSpace(t[1..]) == SkipSpace(s)
  {
    hide SkipSpace;
    NoSpace(",\n" + s);
    assert (",\n" + s)[1..] == "\n" + s;
    SpacesSkipped("\n", s);
  }

  lemma ElementsAfterSpace(s: string)
    ensures Elements(s) == Elements(SkipSpace(s))
  {
    hide JsonString, SkipSpace;
    StringAfterSpace(s);
  }

  lemma {:induction false} FilesAreRead(files: seq<string>)
    requires files != []
    ensures Elements(FilesText(files, END)) == Accept(files, "\n}\n")
  {
    hide JsonString, SkipSpace, Quoted, FilesText;
    var after := Separator(files) + FilesText(files[1..], END);
    FilesStart(files);
    StringAfterSpace(FilesText(files, END));
    QuotedIsRead(files[0], after);
    if |files| == 1 {
      FilesEnds(files);
      EndReached("\n");
      assert [files[0]] == files;
    } else {
      var more := FilesText(files[1..], END);
      CommaReached(more);
      ElementsAfterSpace(more);
      ElementsAfterSpace(SkipSpace(after)[1..]);
      FilesAreRead(files[1..]);
      assert [files[0]] + files[1..] == files;
    }
  }

  lemma ArrayIsRead(files: seq<string>)
    ensures StringArray("[\n" + FilesText(files, END)) == Accept(files, "\n}\n")
  {
    hide SkipSpace, Elements, FilesText;
    var s := "[\n" + FilesText(files, END);
    NoSpace(s);
    assert s[1..] == "\n" + FilesText(files, END);
    SpacesSkipped("\n", FilesText(files, END));
    if files == [] {
      FilesEnds(files);
      EndReached("");
      assert "" + END == END;
    } else {
      FilesStart(files);
      QuotedIsRead(files[0], Separator(files) + FilesText(files[1..], END));
      FilesAreRead(files);
      ElementsAfterSpace(FilesText(files, END));
    }
  }

  lemma TextFieldIsRead(first: bool, key: string, v: string, tail: string, info: PackageInfo)
    requires key in {"package", "version", "prefix"}
    ensures Fields(Member(if first then FIRST else NEXT, key, Quoted(v) + tail), info, first) ==
            Fields(tail, if key == "package" then info.(name := v) else if key == "version" then info.(version := v)
                         else info.(prefix := v), false)
  {
    hide Fields, JsonString, Quoted, Member;
    QuotedIsRead(v, tail);
    MemberIsRead(first, key, Quoted(v) + tail, info);
  }

  lemma TimeIsRead(time: nat, tail: string, info: PackageInfo)
    requires time <= ULONG_MAX && tail != "" && tail[0] == ','
    ensures Fields(Member(NEXT, "install_time", Decimal(time) + tail), info, false) ==
            Fields(tail, info.(installTime := time), false)
  {
    hide Fields, Uint64, Decimal, Member;
    NumberOfDecimal(time);
    NumberIsRead(Decimal(time), tail);
    assert Decimal(time)[0] in Decimal(time);
    MemberIsRead(false, "install_time", Decimal(time) + tail, info);
  }

  lemma FilesFieldIsRead(files: seq<string>, info: PackageInfo)
    ensures Fields(Member(NEXT, "installed_files", "[\n" + FilesText(files, END)), info, false) ==
            Accept(info.(installedFiles := info.installedFiles + files), "\n")
  {
    hide Fields, StringArray, FilesText, Member;
    ArrayIsRead(files);
    MemberIsRead(false, "installed_files", "[\n" + FilesText(files, END), info);
    CloseIsRead(info.(installedFiles := info.installedFiles + files));
  }

  lemma CloseIsRead(info: PackageInfo)
    ensures Fields("\n}\n", info, false) == Accept(info, "\n")
  {
    hide SkipSpace;
    SpacesSkipped("\n", "}\n");
    assert "\n" + "}\n" == "\n}\n" && "}\n"[1..] == "\n";
    NoSpace("}\n");
  }

  lemma FieldsAreRead(i: PackageInfo)
    requires i.installTime <= ULONG_MAX
    ensures Fields(Member(FIRST, "package", Quoted(i.name) + VersionTail(i)), EMPTY_INFO, true) == Accept(i, "\n")
  {
    hide Fields, FilesText, Quoted, Decimal, Member;
    var i1 := EMPTY_INFO.(name := i.name);
    var i2 := i1.(version := i.version);
    var i3 := i2.(installTime := i.installTime);
    var i4 := i3.(prefix := i.prefix);
    TextFieldIsRead(true, "package", i.name, VersionTail(i), EMPTY_INFO);
    TextFieldIsRead(false, "version", i.version, TimeTail(i), i1);
    TailStartsWithComma(i);
    TimeIsRead(i.installTime, PrefixTail(i), i2);
    TextFieldIsRead(false, "prefix", i.prefix, FilesTail(i), i3);
    FilesFieldIsRead(i.installedFiles, i4);
    assert [] + i.installedFiles == i.installedFiles;
  }

  lemma TailStartsWithComma(i: PackageInfo)
    ensures PrefixTail(i) != "" && PrefixTail(i)[0] == ','
  {
    hide Quoted, FilesText;
  }

  /** Parsing the printed form of a record with any strings, any file list and any 64-bit
      time yields that record, exactly when name and prefix are not empty; otherwise the
      parser refuses. */
  lemma SerializedIsRead(i: PackageInfo)
    requires i.installTime <= ULONG_MAX
    ensures InfoOf(Serialized(i)) == if i.name == "" || i.prefix == "" then None else Some(i)
  {
    hide Fields, Member, Quoted;
    var body := Member(FIRST, "package", Quoted(i.name) + VersionTail(i));
    FieldsAreRead(i);
    NoSpace("{" + body);
    assert ("{" + body)[1..] == body;
  }

  lemma ObjectIs(body: string)
    requires body != ""
    ensures InfoOf("{" + body) ==
            match Fields(body, EMPTY_INFO, true)
            case Reject => None
            case Accept(info, _) => if info.name == "" || info.prefix == "" then None else Some(info)
  {
    hide Fields;
    NoSpace("{" + body);
    assert ("{" + body)[1..] == body;
  }

  /** Fields that are left out are empty, and a record without name or prefix is refused. */
  lemma MissingFields(name: string, prefix: string)
    ensures InfoOf("{" + Member(FIRST, "package", Quoted(name) + Member(NEXT, "prefix", Quoted(prefix) + "\n}\n"))) ==
            if name == "" || prefix == "" then None else Some(PackageInfo(name, "", 0, prefix, []))
    ensures InfoOf("{" + Member(FIRST, "package", Quoted(name) + "\n}\n")) == None
    ensures InfoOf("{" + Member(FIRST, "prefix", Quoted(prefix) + "\n}\n")) == None
  {
    hide Fields, InfoOf, Quoted, Member;
    var named, placed := EMPTY_INFO.(name := name), EMPTY_INFO.(prefix := prefix);
    var close, place := "\n}\n", Member(NEXT, "prefix", Quoted(prefix) + "\n}\n");
    CloseIsRead(named);
    CloseIsRead(placed);
    CloseIsRead(named.(prefix := prefix));
    TextFieldIsRead(false, "prefix", prefix, close, named);
    TextFieldIsRead(true, "package", name, place, EMPTY_INFO);
    TextFieldIsRead(true, "package", name, close, EMPTY_INFO);
    TextFieldIsRead(true, "prefix", prefix, close, EMPTY_INFO);
    MemberNotEmpty(FIRST, "package", Quoted(name) + place);
    MemberNotEmpty(FIRST, "package", Quoted(name) + close);
    MemberNotEmpty(FIRST, "prefix", Quoted(prefix) + close);
    ObjectIs(Member(FIRST, "package", Quoted(name) + place));
    ObjectIs(Member(FIRST, "package", Quoted(name) + close));
    ObjectIs(Member(FIRST, "prefix", Quoted(prefix) + close));
  }

  lemma MemberNotEmpty(lead: string, key: string, value: string)
    ensures Member(lead, key, value) != ""
  {
  }

  /** The printed form of a record without files. */
  lemma SerializedLayout(i: PackageInfo)
    requires i.installedFiles == []
    ensures Serialized(i) ==
            "{" + ("\n  \"package\": " + (Quoted(i.name) +
            (",\n  \"version\": " + (Quoted(i.version) +
            (",\n  \"install_time\": " + (Decimal(i.installTime) +
            (",\n  \"prefix\": " + (Quoted(i.prefix) +
            (",\n  \"installed_files\": " + "[\n  ]\n}\n")))))))))
  {
    hide Quoted, Decimal;
    Leads();
    LastLeads();
  }

  lemma Leads()
    ensures FIRST + "  \"" + "package" + "\": " == "\n  \"package\": "
    ensures NEXT + "  \"" + "version" + "\": " == ",\n  \"version\": "
    ensures NEXT + "  \"" + "install_time" + "\": " == ",\n  \"install_time\": "
  {
  }

  lemma LastLeads()
    ensures NEXT + "  \"" + "prefix" + "\": " == ",\n  \"prefix\": "
    ensures NEXT + "  \"" + "installed_files" + "\": " == ",\n  \"installed_files\": "
    ensures "[\n" + END == "[\n  ]\n}\n"
  {
  }

  // ----- values of unknown fields -----

  /** Any JSON value the parser may have to step over. */
  datatype Json =
    | JText(text: string)
    | JNumber(digits: string)
    | JObject(members: Members)
    | JArray(items: Items)
    | JTrue | JFalse | JNull

  datatype Members = NoMembers | AndMember(key: string, value: Json, others: Members)

  datatype Items = NoItems | AndItem(item: Json, more: Items)

  /** An optional sign followed by at least one character of a number. */
  predicate NumberText(t: string) {
    && t != "" && (IsDigit(t[0]) || ((t[0] == '-' || t[0] == '+') && |t| > 1))
    && forall i :: 0 <= i < |t| ==> NumberChar(t[i])
  }

  predicate Numeric(j: Json) {
    match j
    case JNumber(t) => NumberText(t)
    case JObject(ms) => NumericMembers(ms)
    case JArray(xs) => NumericItems(xs)
    case _ => true
  }

  predicate NumericMembers(ms: Members) {
    ms.AndMember? ==> Numeric(ms.value) && NumericMembers(ms.others)
  }

  predicate NumericItems(xs: Items) {
    xs.AndItem? ==> Numeric(xs.item) && NumericItems(xs.more)
  }

  function Print(j: Json): string {
    match j
    case JText(t) => Quoted(t)
    case JNumber(t) => t
    case JObject(ms) => "{" + PrintMembers(ms)
    case JArray(xs) => "[" + PrintItems(xs)
    case JTrue => "true"
    case JFalse => "false"
    case JNull => "null"
  }

  function PrintMembers(ms: Members): string {
    match ms
    case NoMembers => "}"
    case AndMember(k, v, others) =>
      Quoted(k) + (":" + (Print(v) + if others.NoMembers? then "}" else "," + PrintMembers(others)))
  }

  function PrintItems(xs: Items): string {
    match xs
    case NoItems => "]"
    case AndItem(x, more) => Print(x) + if more.NoItems? then "]" else "," + PrintItems(more)
  }

  predicate Delimited(rest: string) { rest == "" || !NumberChar(rest[0]) }

  lemma {:induction false} NumberCharsSkipped(t: string, rest: string)
    requires (forall i :: 0 <= i < |t| ==> NumberChar(t[i])) && Delimited(rest)
    ensures SkipNumberChars(t + rest) == rest
  {
    if t == "" {
      assert t + rest == rest;
    } else {
      assert (t + rest)[1..] == t[1..] + rest;
      NumberCharsSkipped(t[1..], rest);
    }
  }

  lemma NumberSkipped(t: string, rest: string)
    requires NumberText(t) && Delimited(rest)
    ensures SkipValue(t + rest) == Some(rest)
  {
    hide SkipNumberChars, SkipSpace, JsonString;
    var s := t + rest;
    assert NumberChar(t[0]) && s[0] == t[0];
    NoSpace(s);
    NumberCharsSkipped(t, rest);
    NumberCharsSkipped(t[1..], rest);
    assert s[1..] == t[1..] + rest;
  }

  lemma LiteralSkipped(literal: string, rest: string)
    requires literal in {"true", "false", "null"}
    ensures SkipValue(literal + rest) == Some(rest)
  {
    hide SkipSpace, JsonString;
    var s := literal + rest;
    NoSpace(s);
    assert s[..|literal|] == literal && s[|literal|..] == rest;
  }

  lemma TextSkipped(t: string, rest: string)
    ensures SkipValue(Quoted(t) + rest) == Some(rest)
  {
    hide SkipSpace, JsonString, Quoted;
    QuotedIsRead(t, rest);
    NoSpace(Quoted(t) + rest);
  }

  lemma OpenSkipped(open: char, body: string)
    requires (open == '{' || open == '[') && body != "" && !IsJsonSpace(body[0])
    requires body[0] != '}' && body[0] != ']'
    ensures SkipValue([open] + body) == if open == '{' then SkipMembers(body) else SkipItems(body)
  {
    hide SkipSpace, SkipMembers, SkipItems, JsonString;
    var s := [open] + body;
    NoSpace(s);
    assert s[1..] == body;
    NoSpace(body);
  }

  lemma EmptySkipped(open: char, close: char, rest: string)
    requires (open == '{' && close == '}') || (open == '[' && close == ']')
    ensures SkipValue([open] + ([close] + rest)) == Some(rest)
  {
    hide SkipSpace, SkipMembers, SkipItems, JsonString;
    var s := [open] + ([close] + rest);
    NoSpace(s);
    assert s[1..] == [close] + rest && ([close] + rest)[1..] == rest;
    NoSpace([close] + rest);
  }

  /** No printed value starts with white space or a closing bracket. */
  lemma PrintStarts(j: Json)
    requires Numeric(j)
    ensures var p := Print(j); p != "" && !IsJsonSpace(p[0]) && p[0] != '}' && p[0] != ']'
  {
    if j.JText? {
      QuotedIsRead(j.text, "");
    } else if j.JNumber? {
      assert NumberChar(j.digits[0]);
    }
  }

  /** The parser steps over exactly one printed value, however deeply nested. */
  lemma {:induction false} PrintedIsSkipped(j: Json, rest: string)
    requires Numeric(j) && Delimited(rest)
    ensures SkipValue(Print(j) + rest) == Some(rest)
    decreases j, 0
  {
    hide SkipValue, Quoted, PrintMembers, PrintItems, NumberText;
    match j
    case JText(t) => TextSkipped(t, rest);
    case JNumber(t) => NumberSkipped(t, rest);
    case JTrue => LiteralSkipped("true", rest);
    case JFalse => LiteralSkipped("false", rest);
    case JNull => LiteralSkipped("null", rest);
    case JObject(ms) =>
      ConcatAssoc("{", PrintMembers(ms), rest);
      if ms.NoMembers? {
        NothingInside();
        EmptySkipped('{', '}', rest);
      } else {
        MembersSkipped(ms, rest);
        OpenSkipped('{', PrintMembers(ms) + rest);
      }
    case JArray(xs) =>
      ConcatAssoc("[", PrintItems(xs), rest);
      if xs.NoItems? {
        NothingInside();
        EmptySkipped('[', ']', rest);
      } else {
        ItemsSkipped(xs, rest);
        OpenSkipped('[', PrintItems(xs) + rest);
      }
  }

  lemma NothingInside()
    ensures PrintMembers(NoMembers) == "}" && PrintItems(NoItems) == "]"
  {
  }

  lemma {:induction false} MembersSkipped(ms: Members, rest: string)
    requires ms.AndMember? && NumericMembers(ms)
    ensures SkipMembers(PrintMembers(ms) + rest) == Some(rest)
    ensures At(PrintMembers(ms) + rest, '"')
    decreases ms, 1
  {
    hide SkipValue, Quoted, Print, Numeric, SkipSpace, JsonString;
    var close := if ms.others.NoMembers? then "}" else "," + PrintMembers(ms.others);
    var value := Print(ms.value) + (close + rest);
    ConcatAssoc(Print(ms.value), close, rest);
    ConcatAssoc(":", Print(ms.value) + close, rest);
    ConcatAssoc(Quoted(ms.key), ":" + (Print(ms.value) + close), rest);
    assert PrintMembers(ms) + rest == Quoted(ms.key) + (":" + value);
    QuotedIsRead(ms.key, ":" + value);
    NoSpace(":" + value);
    assert (":" + value)[1..] == value;
    PrintedIsSkipped(ms.value, close + rest);
    NoSpace(close + rest);
    if ms.others.NoMembers? {
      assert (close + rest)[1..] == rest;
    } else {
      assert (close + rest)[1..] == PrintMembers(ms.others) + rest;
      MembersSkipped(ms.others, rest);
    }
  }

  lemma {:induction false} ItemsSkipped(xs: Items, rest: string)
    requires xs.AndItem? && NumericItems(xs)
    ensures SkipItems(PrintItems(xs) + rest) == Some(rest)
    ensures var s := PrintItems(xs) + rest; s != "" && !IsJsonSpace(s[0]) && s[0] != '}' && s[0] != ']'
    decreases xs, 1
  {
    hide SkipValue, Print, Numeric, SkipSpace;
    var close := if xs.more.NoItems? then "]" else "," + PrintItems(xs.more);
    ConcatAssoc(Print(xs.item), close, rest);
    PrintedIsSkipped(xs.item, close + rest);
    PrintStarts(xs.item);
    NoSpace(close + rest);
    if xs.more.NoItems? {
      assert (close + rest)[1..] == rest;
    } else {
      assert (close + rest)[1..] == PrintItems(xs.more) + rest;
      ItemsSkipped(xs.more, rest);
    }
  }

  /** A field the parser does not know changes nothing, whatever value it holds. */
  lemma UnknownFieldIgnored(first: bool, key: string, j: Json, tail: string, info: PackageInfo)
    requires PlainKey(key) && Numeric(j) && Delimited(tail)
    requires key !in {"package", "version", "prefix", "install_time", "installed_files"}
    ensures Fields(Member(if first then FIRST else NEXT, key, Print(j) + tail), info, first) == Fields(tail, info, false)
  {
    hide Fields, SkipValue, Print, Member;
    PrintStarts(j);
    PrintedIsSkipped(j, tail);
    MemberIsRead(first, key, Print(j) + tail, info);
  }
}
