/** Response frames of the IPC protocol: escaping, key/value lines, and their parser. */
module Protocol {
  import opened Wrappers
  import opened Text

  // ----- escaping -----

  function EscapeChar(c: char): string {
    match c
    case '\\' => "\\\\"
    case '\n' => "\\n"
    case '\r' => "\\r"
    case _ => [c]
  }

  function Escape(s: string): string {
    if s == "" then "" else EscapeChar(s[0]) + Escape(s[1..])
  }

  function Unescape(s: string): string
    decreases |s|
  {
    if s == "" then ""
    else if s[0] != '\\' || |s| == 1 then [s[0]] + Unescape(s[1..])
    else
      (match s[1]
       case 'n' => "\n"
       case 'r' => "\r"
       case '\\' => "\\"
       case other => ['\\', other]) + Unescape(s[2..])
  }

  method EscapeFieldValue(value: string) returns (out: string)
    ensures out == Escape(value)
  {
    out := "";
    for i := 0 to |value|
      invariant out + Escape(value[i..]) == Escape(value)
    {
      hide Escape;
      var c := value[i];
      EscapeNext(value, i);
      ConcatAssoc(out, EscapeChar(c), Escape(value[i + 1..]));
      match c {
        case '\\' => out := out + "\\\\";
        case '\n' => out := out + "\\n";
        case '\r' => out := out + "\\r";
        case _ => out := out + [c];
      }
    }
  }

  lemma EscapeNext(s: string, i: nat)
    requires i < |s|
    ensures Escape(s[i..]) == EscapeChar(s[i]) + Escape(s[i + 1..])
  {
    assert s[i..][1..] == s[i + 1..];
  }

  /** What one iteration of the unescaping loop appends, and how far it moves. */
  function Unescaped(s: string): (r: (string, nat))
    requires s != ""
    ensures 0 < r.1 <= |s| && Unescape(s) == r.0 + Unescape(s[r.1..])
  {
    if s[0] != '\\' || |s| == 1 then ([s[0]], 1)
    else
      (match s[1]
       case 'n' => "\n"
       case 'r' => "\r"
       case '\\' => "\\"
       case other => ['\\', other], 2)
  }

  method UnescapeFieldValue(value: string) returns (out: string)
    ensures out == Unescape(value)
  {
    out := "";
    var i := 0;
    while i < |value|
      invariant 0 <= i <= |value| && out + Unescape(value[i..]) == Unescape(value)
    {
      hide Unescape;
      ghost var step := Unescaped(value[i..]);
      assert value[i..][step.1..] == value[i + step.1..];
      ConcatAssoc(out, step.0, Unescape(value[i + step.1..]));
      var c := value[i];
      if c != '\\' || i + 1 >= |value| {
        out := out + [c];
        i := i + 1;
        continue;
      }
      var next := value[i + 1];
      match next {
        case 'n' => out := out + "\n";
        case 'r' => out := out + "\r";
        case '\\' => out := out + "\\";
        case _ => out := out + ['\\', next];
      }
      i := i + 2;
    }
  }

  lemma {:induction false} UnescapeStep(c: char, rest: string)
    ensures Unescape(EscapeChar(c) + rest) == [c] + Unescape(rest)
  {
    var e := EscapeChar(c) + rest;
    if |EscapeChar(c)| == 2 {
      assert e[2..] == rest;
    } else {
      assert e[1..] == rest;
    }
  }

  /** Unescaping undoes escaping for every string. */
  lemma {:induction false} UnescapeEscape(s: string)
    ensures Unescape(Escape(s)) == s
  {
    if s != "" {
      UnescapeStep(s[0], Escape(s[1..]));
      UnescapeEscape(s[1..]);
    }
  }

  lemma {:induction false} EscapeIsOneLine(s: string)
    ensures '\n' !in Escape(s) && '\r' !in Escape(s)
  {
    if s != "" {
      EscapeIsOneLine(s[1..]);
    }
  }

  // ----- what trimming does to an escaped value -----

  /** Spaces that escaping leaves as they are. */
  predicate IsBlank(c: char) { IsSpace(c) && c != '\n' && c != '\r' }

  function LTrimBlanks(s: string): string {
    if s != "" && IsBlank(s[0]) then LTrimBlanks(s[1..]) else s
  }

  function RTrimBlanks(s: string): string {
    if s != "" && IsBlank(s[|s| - 1]) then RTrimBlanks(s[..|s| - 1]) else s
  }

  predicate NoEdgeBlanks(s: string) {
    s == "" || (!IsBlank(s[0]) && !IsBlank(s[|s| - 1]))
  }

  lemma EscapedEnds(c: char)
    ensures var e := EscapeChar(c);
            && e != ""
            && (if IsBlank(c) then e == [c] else !IsSpace(e[0]) && !IsSpace(e[|e| - 1]))
  {
  }

  lemma TrimLeft(e: string, t: string)
    requires e != ""
    ensures !IsSpace(e[0]) ==> LTrim(e + t) == e + t
    ensures |e| == 1 && IsSpace(e[0]) ==> LTrim(e + t) == LTrim(t)
  {
    if |e| == 1 {
      assert (e + t)[1..] == t;
    }
  }

  lemma TrimRight(t: string, e: string)
    requires e != ""
    ensures !IsSpace(e[|e| - 1]) ==> RTrim(t + e) == t + e
    ensures |e| == 1 && IsSpace(e[0]) ==> RTrim(t + e) == RTrim(t)
  {
    if |e| == 1 {
      assert (t + e)[..|t|] == t;
    }
  }

  lemma {:induction false} LTrimEscape(s: string)
    ensures LTrim(Escape(s)) == Escape(LTrimBlanks(s))
  {
    hide LTrim, EscapeChar;
    if s == "" {
      TrimNothing();
    } else {
      EscapedEnds(s[0]);
      TrimLeft(EscapeChar(s[0]), Escape(s[1..]));
      if IsBlank(s[0]) {
        LTrimEscape(s[1..]);
      }
    }
  }

  lemma TrimNothing()
    ensures LTrim("") == "" && RTrim("") == ""
  {
  }

  lemma {:induction false} EscapeLast(s: string)
    requires s != ""
    ensures Escape(s) == Escape(s[..|s| - 1]) + EscapeChar(s[|s| - 1])
  {
    hide EscapeChar;
    if |s| == 1 {
      assert s[1..] == s[..0] == "";
      assert EscapeChar(s[0]) + "" == EscapeChar(s[0]) == "" + EscapeChar(s[0]);
    } else {
      EscapeLast(s[1..]);
      assert s[1..][..|s| - 2] == s[..|s| - 1][1..];
      ConcatAssoc(EscapeChar(s[0]), Escape(s[..|s| - 1][1..]), EscapeChar(s[|s| - 1]));
    }
  }

  lemma {:induction false} RTrimEscape(s: string)
    ensures RTrim(Escape(s)) == Escape(RTrimBlanks(s))
  {
    hide RTrim, Escape, EscapeChar;
    if s == "" {
      TrimNothing();
      EscapePlain("");
    } else {
      EscapeLast(s);
      EscapedEnds(s[|s| - 1]);
      TrimRight(Escape(s[..|s| - 1]), EscapeChar(s[|s| - 1]));
      if IsBlank(s[|s| - 1]) {
        RTrimEscape(s[..|s| - 1]);
      }
    }
  }

  /** The value the other side reads back. */
  lemma ReadBack(v: string)
    ensures Unescape(Trim(Escape(v))) == RTrimBlanks(LTrimBlanks(v))
  {
    LTrimEscape(v);
    RTrimEscape(LTrimBlanks(v));
    UnescapeEscape(RTrimBlanks(LTrimBlanks(v)));
  }

  /** A value survives the trip exactly when it neither starts nor ends with a blank; edge
      newlines and carriage returns are safe. */
  lemma ReadBackIff(v: string)
    ensures Unescape(Trim(Escape(v))) == v <==> NoEdgeBlanks(v)
  {
    hide Trim, Escape, Unescape, LTrimBlanks, RTrimBlanks;
    ReadBack(v);
    LTrimShorter(v);
    RTrimShorter(LTrimBlanks(v));
  }

  /** A token with a blank at its end arrives without it. */
  lemma EdgeBlankLost()
    ensures Unescape(Trim(Escape("key "))) == "key" != "key "
  {
    hide Trim, Escape, Unescape;
    ReadBack("key ");
    assert LTrimBlanks("key ") == "key ";
    assert "key "[..3] == "key" && RTrimBlanks("key") == "key";
    assert "key "[3] == ' ' && RTrimBlanks("key ") == RTrimBlanks("key "[..3]);
  }

  lemma {:induction false} LTrimShorter(s: string)
    ensures |LTrimBlanks(s)| <= |s|
    ensures if s == "" || !IsBlank(s[0]) then LTrimBlanks(s) == s else |LTrimBlanks(s)| < |s|
  {
    if s != "" && IsBlank(s[0]) {
      LTrimShorter(s[1..]);
    }
  }

  lemma {:induction false} RTrimShorter(s: string)
    ensures |RTrimBlanks(s)| <= |s|
    ensures if s == "" || !IsBlank(s[|s| - 1]) then RTrimBlanks(s) == s else |RTrimBlanks(s)| < |s|
  {
    if s != "" && IsBlank(s[|s| - 1]) {
      RTrimShorter(s[..|s| - 1]);
    }
  }

  // ----- key/value lines -----

  type Fields = map<string, string>

  /** Meaning of parseKeyValueLines; a malformed line leaves no fields at all. */
  function KeyValues(ls: seq<string>, acc: Fields): Fields {
    if ls == [] then acc
    else
      var l := DropCr(ls[0]);
      if l == "" then acc
      else
        match Find(l, ':')
        case None => map[]
        case Some(k) =>
          var key := Trim(l[..k]);
          if key == "" then map[]
          else KeyValues(ls[1..], acc[key := Unescape(Trim(l[k + 1..]))])
  }

  method ParseKeyValueLines(raw: string) returns (fields: Fields)
    ensures fields == KeyValues(Lines(raw), map[])
  {
    var lines := Lines(raw);
    fields := map[];
    for i := 0 to |lines|
      invariant KeyValues(lines[i..], fields) == KeyValues(lines, map[])
    {
      assert lines[i..][1..] == lines[i + 1..];
      var line := DropCr(lines[i]);
      if line == "" {
        return;
      }
      match Find(line, ':') {
        case None =>
          return map[];
        case Some(pos) =>
          var key, value := Trim(line[..pos]), Trim(line[pos + 1..]);
          value := UnescapeFieldValue(value);
          if key == "" {
            return map[];
          }
          fields := fields[key := value];
      }
    }
  }

  /** Keys that come back unchanged. */
  predicate LegalKey(k: string) {
    k != "" && ':' !in k && '\n' !in k && '\r' !in k && Trim(k) == k
  }

  function FieldLine(k: string, v: string): string { k + ":" + Escape(v) }

  lemma FieldLineParses(k: string, v: string)
    requires LegalKey(k)
    ensures var l := FieldLine(k, v);
            && l != "" && '\n' !in l && DropCr(l) == l && Find(l, ':') == Some(|k|)
            && l[..|k|] == k && l[|k| + 1..] == Escape(v)
  {
    hide Escape, Trim, Find;
    EscapeIsOneLine(v);
    FindFirst(k, ':', Escape(v));
    LineShape(k, Escape(v));
  }

  lemma LineShape(k: string, e: string)
    requires '\n' !in k && '\n' !in e && '\r' !in e
    ensures var l := k + ":" + e;
            l != "" && '\n' !in l && DropCr(l) == l && l[..|k|] == k && l[|k| + 1..] == e && l == k + [':'] + e
  {
    var l := k + ":" + e;
    assert e != "" ==> l[|l| - 1] == e[|e| - 1];
    assert e == "" ==> l[|l| - 1] == ':';
  }

  type Pairs = seq<(string, string)>

  ghost predicate Legal(ps: Pairs) {
    forall p :: p in ps ==> LegalKey(p.0) && NoEdgeBlanks(p.1)
  }

  function PairLines(ps: Pairs): (r: seq<string>)
    ensures |r| == |ps|
  {
    seq(|ps|, i requires 0 <= i < |ps| => FieldLine(ps[i].0, ps[i].1))
  }

  function Apply(ps: Pairs, acc: Fields): Fields {
    if ps == [] then acc else Apply(ps[1..], acc[ps[0].0 := ps[0].1])
  }

  lemma KeyValuesStep(k: string, v: string, rest: seq<string>, acc: Fields)
    requires LegalKey(k) && NoEdgeBlanks(v)
    ensures KeyValues([FieldLine(k, v)] + rest, acc) == KeyValues(rest, acc[k := v])
  {
    hide Escape, Unescape, NoEdgeBlanks, Find, DropCr;
    FieldLineParses(k, v);
    ReadBackIff(v);
    var ls := [FieldLine(k, v)] + rest;
    assert ls[0] == FieldLine(k, v) && ls[1..] == rest;
  }

  lemma KeyValuesStop(more: seq<string>, acc: Fields)
    ensures KeyValues([""] + more, acc) == acc
  {
    assert ([""] + more)[0] == "";
  }

  lemma PairLinesCons(ps: Pairs)
    requires ps != []
    ensures PairLines(ps) == [FieldLine(ps[0].0, ps[0].1)] + PairLines(ps[1..])
  {
  }

  /** Legal pairs, written as lines and ended by a blank line, are read back as they are. */
  lemma {:induction false} KeyValuesOfPairs(ps: Pairs, more: seq<string>, acc: Fields)
    requires Legal(ps)
    ensures KeyValues(PairLines(ps) + ([""] + more), acc) == Apply(ps, acc)
  {
    hide FieldLine, LegalKey, NoEdgeBlanks, KeyValues;
    if ps == [] {
      KeyValuesStop(more, acc);
      assert PairLines(ps) + ([""] + more) == [""] + more;
    } else {
      hide PairLines;
      assert ps[0] in ps && forall p :: p in ps[1..] ==> p in ps;
      var (k, v) := ps[0];
      KeyValuesOfPairs(ps[1..], more, acc[k := v]);
      PairLinesCons(ps);
      ConcatAssoc([FieldLine(k, v)], PairLines(ps[1..]), [""] + more);
      KeyValuesStep(k, v, PairLines(ps[1..]) + ([""] + more), acc);
    }
  }

  lemma PairLinesAreLines(ps: Pairs)
    requires Legal(ps)
    ensures forall l :: l in PairLines(ps) ==> l != "" && '\n' !in l
  {
    forall i | 0 <= i < |ps|
      ensures PairLines(ps)[i] != "" && '\n' !in PairLines(ps)[i]
    {
      assert ps[i] in ps;
      FieldLineParses(ps[i].0, ps[i].1);
    }
  }

  // ----- responses -----

  datatype Status = Unknown | Ok | Error | Progress
  datatype Response = Response(status: Status, success: bool, message: string, id: string, rawFields: Fields)

  function StatusText(r: Response): string {
    match r.status
    case Ok => "ok"
    case Error => "error"
    case Progress => "progress"
    case Unknown => if r.success then "ok" else "error"
  }

  function Get(fields: Fields, k: string): string { if k in fields then fields[k] else "" }

  /** Meaning of parseResponse on the fields of a frame. */
  function ResponseOf(fields: Fields): Option<Response> {
    var rest := fields - {"status", "id", "message"};
    var status := Get(fields, "status");
    if status == "ok" then Some(Response(Ok, true, Get(fields, "message"), Get(fields, "id"), rest))
    else if status == "error" then Some(Response(Error, false, Get(fields, "message"), Get(fields, "id"), rest))
    else if status == "progress" then Some(Response(Progress, false, Get(fields, "message"), Get(fields, "id"), rest))
    else None
  }

  method ParseResponse(raw: string) returns (r: Option<Response>)
    ensures r == ResponseOf(KeyValues(Lines(raw), map[]))
  {
    var fields := ParseKeyValueLines(raw);
    if fields == map[] {
      return None;
    }
    var status, success;
    var text := Get(fields, "status");
    if text == "ok" {
      status, success := Ok, true;
    } else if text == "error" {
      status, success := Error, false;
    } else if text == "progress" {
      status, success := Progress, false;
    } else {
      return None;
    }
    return Some(Response(status, success, Get(fields, "message"), Get(fields, "id"), fields - {"status", "id", "message"}));
  }

  /** The word sent is read as the same status; a response without one is sent as ok or error
      by its success flag. */
  lemma StatusIsRead(r: Response)
    ensures var again := ResponseOf(map["status" := StatusText(r)]);
            && again.Some?
            && (r.status != Unknown ==> again.value.status == r.status)
            && (r.status == Unknown ==> again.value.success == r.success)
            && (again.value.success <==> StatusText(r) == "ok")
  {
  }

  /** The fields of a response in the order they are written; `order` is the enumeration
      order of the hash map. */
  function Written(r: Response, order: seq<string>): Pairs
    requires forall k :: k in order ==> k in r.rawFields
  {
    [("status", StatusText(r))]
    + (if r.id != "" then [("id", r.id)] else [])
    + (if r.message != "" then [("message", r.message)] else [])
    + RawPairs(r.rawFields, order)
  }

  function RawPairs(m: Fields, order: seq<string>): (r: Pairs)
    requires forall k :: k in order ==> k in m
    ensures |r| == |order| && forall i :: 0 <= i < |r| ==> r[i] == (order[i], m[order[i]])
  {
    seq(|order|, i requires 0 <= i < |order| => (order[i], m[order[i]]))
  }

  function Frame(ps: Pairs): string { Unlines(PairLines(ps)) + "\n" }

  ghost predicate Enumerates(order: seq<string>, m: Fields) {
    forall k :: k in order <==> k in m
  }

  method SerializeResponse(r: Response) returns (wire: string, ghost order: seq<string>)
    ensures Enumerates(order, r.rawFields) && wire == Frame(Written(r, order))
  {
    hide Escape, PairLines, Unlines;
    NoLines();
    wire := "status:" + StatusText(r) + "\n";
    StatusNeedsNoEscape(r);
    ghost var ps := [("status", StatusText(r))];
    FramePush([], "status", StatusText(r));
    assert [] + ps == ps && wire == Unlines(PairLines(ps));
    if r.id != "" {
      var e := EscapeFieldValue(r.id);
      FramePush(ps, "id", r.id);
      wire, ps := wire + "id:" + e + "\n", ps + [("id", r.id)];
    }
    if r.message != "" {
      var e := EscapeFieldValue(r.message);
      FramePush(ps, "message", r.message);
      wire, ps := wire + "message:" + e + "\n", ps + [("message", r.message)];
    }
    order := [];
    var rest := r.rawFields.Keys;
    while rest != {}
      invariant rest <= r.rawFields.Keys
      invariant forall k :: k in order <==> k in r.rawFields && k !in rest
      invariant ps == Written(r, order) && wire == Unlines(PairLines(ps))
    {
      var k :| k in rest;
      rest := rest - {k};
      var e := EscapeFieldValue(r.rawFields[k]);
      FramePush(ps, k, r.rawFields[k]);
      assert RawPairs(r.rawFields, order + [k]) == RawPairs(r.rawFields, order) + [(k, r.rawFields[k])];
      wire, ps, order := wire + k + ":" + e + "\n", ps + [(k, r.rawFields[k])], order + [k];
    }
    wire := wire + "\n";
  }

  lemma NoLines()
    ensures Unlines(PairLines([])) == ""
  {
  }

  lemma {:induction false} EscapePlain(s: string)
    requires forall i :: 0 <= i < |s| ==> 'a' <= s[i] <= 'z'
    ensures Escape(s) == s
  {
    if s != "" {
      EscapePlain(s[1..]);
      assert s == [s[0]] + s[1..];
    }
  }

  lemma StatusNeedsNoEscape(r: Response)
    ensures Escape(StatusText(r)) == StatusText(r)
  {
    EscapePlain(StatusText(r));
  }

  lemma FramePush(ps: Pairs, k: string, v: string)
    ensures Unlines(PairLines(ps + [(k, v)])) == Unlines(PairLines(ps)) + k + ":" + Escape(v) + "\n"
  {
    hide Escape;
    var l := FieldLine(k, v);
    assert PairLines(ps + [(k, v)]) == PairLines(ps) + [l];
    UnlinesConcat(PairLines(ps), [l]);
    assert Unlines([l]) == l + "\n" + Unlines([]);
  }

  // ----- round trip -----

  lemma {:induction false} ApplyConcat(a: Pairs, b: Pairs, acc: Fields)
    ensures Apply(a + b, acc) == Apply(b, Apply(a, acc))
  {
    if a == [] {
      assert a + b == b;
    } else {
      assert (a + b)[0] == a[0] && (a + b)[1..] == a[1..] + b;
      ApplyConcat(a[1..], b, acc[a[0].0 := a[0].1]);
    }
  }

  /** The part of m that an enumeration covers. */
  function Picked(m: Fields, order: seq<string>): Fields
    requires forall k :: k in order ==> k in m
  {
    map k | k in order :: m[k]
  }

  lemma PickedNext(m: Fields, order: seq<string>, last: string, acc: Fields)
    requires last in m && forall k :: k in order ==> k in m
    ensures acc + Picked(m, order + [last]) == (acc + Picked(m, order))[last := m[last]]
  {
    assert forall k :: k in order + [last] <==> k in order || k == last;
  }

  lemma {:induction false} ApplyRaw(m: Fields, order: seq<string>, acc: Fields)
    requires forall k :: k in order ==> k in m
    ensures Apply(RawPairs(m, order), acc) == acc + Picked(m, order)
  {
    if order == [] {
      assert acc + Picked(m, order) == acc;
    } else {
      hide Picked;
      var init, last := order[..|order| - 1], order[|order| - 1];
      assert order == init + [last];
      ApplyRaw(m, init, acc);
      PickedNext(m, init, last, acc);
      RawPairsNext(m, init, last);
      ApplyConcat(RawPairs(m, init), [(last, m[last])], acc);
    }
  }

  lemma RawPairsNext(m: Fields, order: seq<string>, last: string)
    requires last in m && forall k :: k in order ==> k in m
    ensures RawPairs(m, order + [last]) == RawPairs(m, order) + [(last, m[last])]
  {
  }

  /** Responses that survive the trip: a definite status, legal keys, no value with a blank
      at either end. */
  ghost predicate WellFormed(r: Response) {
    && r.status != Unknown && r.success == r.status.Ok?
    && NoEdgeBlanks(r.id) && NoEdgeBlanks(r.message)
    && forall k :: k in r.rawFields ==>
                     LegalKey(k) && k !in {"status", "id", "message"} && NoEdgeBlanks(r.rawFields[k])
  }

  lemma HeaderKeysLegal()
    ensures LegalKey("status") && LegalKey("id") && LegalKey("message")
  {
    hide Trim;
    TrimIdIff("status");
    TrimIdIff("id");
    TrimIdIff("message");
  }

  lemma WrittenIsLegal(r: Response, order: seq<string>)
    requires WellFormed(r) && Enumerates(order, r.rawFields)
    ensures Legal(Written(r, order))
  {
    hide LegalKey;
    HeaderKeysLegal();
    forall p | p in RawPairs(r.rawFields, order)
      ensures LegalKey(p.0) && NoEdgeBlanks(p.1)
    {
      var i :| 0 <= i < |order| && p == (order[i], r.rawFields[order[i]]);
      assert order[i] in order;
    }
  }

  lemma FieldsOfFrame(ps: Pairs)
    requires Legal(ps)
    ensures KeyValues(Lines(Frame(ps)), map[]) == Apply(ps, map[])
  {
    hide KeyValues, Apply, PairLines, Legal;
    PairLinesAreLines(ps);
    LinesOfUnlines(PairLines(ps), "\n");
    LinesOfOne("", "");
    assert "" + ['\n'] + "" == "\n" && Lines("\n") == [""];
    KeyValuesOfPairs(ps, [], map[]);
    assert [""] + [] == [""];
  }

  /** Parsing what was serialised yields the same response, whatever order the hash map
      enumerates its fields in. */
  lemma ResponseRoundTrip(r: Response, order: seq<string>)
    requires WellFormed(r) && Enumerates(order, r.rawFields)
    ensures ResponseOf(KeyValues(Lines(Frame(Written(r, order))), map[])) == Some(r)
  {
    hide KeyValues, Lines, Frame, LegalKey, NoEdgeBlanks, Apply, RawPairs;
    WrittenIsLegal(r, order);
    FieldsOfFrame(Written(r, order));
    var header := [("status", StatusText(r))]
                  + (if r.id != "" then [("id", r.id)] else [])
                  + (if r.message != "" then [("message", r.message)] else []);
    ApplyConcat(header, RawPairs(r.rawFields, order), map[]);
    HeaderFields(r, header);
    ApplyRaw(r.rawFields, order, Apply(header, map[]));
    assert Picked(r.rawFields, order) == r.rawFields;
    SplitFields(r, Apply(header, map[]));
  }

  /** Header fields and raw fields do not mix. */
  lemma SplitFields(r: Response, header: Fields)
    requires WellFormed(r) && header.Keys <= {"status", "id", "message"}
    requires Get(header, "status") == StatusText(r) && Get(header, "id") == r.id && Get(header, "message") == r.message
    ensures ResponseOf(header + r.rawFields) == Some(r)
  {
    hide LegalKey, NoEdgeBlanks;
    var fields := header + r.rawFields;
    assert fields - {"status", "id", "message"} == r.rawFields;
  }

  lemma HeaderFields(r: Response, header: Pairs)
    requires header == [("status", StatusText(r))]
                       + (if r.id != "" then [("id", r.id)] else [])
                       + (if r.message != "" then [("message", r.message)] else [])
    ensures var fields := Apply(header, map[]);
            && Get(fields, "status") == StatusText(r) && Get(fields, "id") == r.id && Get(fields, "message") == r.message
            && fields.Keys <= {"status", "id", "message"}
  {
    var h1 := [("status", StatusText(r))];
    var h2 := h1 + (if r.id != "" then [("id", r.id)] else []);
    ApplyConcat(h1, if r.id != "" then [("id", r.id)] else [], map[]);
    ApplyConcat(h2, if r.message != "" then [("message", r.message)] else [], map[]);
  }
}
