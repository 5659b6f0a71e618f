/** The session file shared by apmd and amsd: its text form, and rolling validity over
    interleaved runs of both daemons. The MAC is an arbitrary function. */
module Session {
  import opened Wrappers
  import opened Text

  const LIFETIME := 180

  datatype SessionState = SessionState(token: string, expiresAt: nat, hmac: string)

  const EMPTY_STATE := SessionState("", 0, "")

  // ----- text form -----

  /** The effect of one line of the file; None if the line is malformed. */
  function ParseLine(raw: string, s: SessionState): Option<SessionState> {
    var line := DropCr(raw);
    if line == "" then Some(s)
    else
      match Find(line, ':')
      case None => None
      case Some(k) =>
        var key, value := Trim(line[..k]), Trim(line[k + 1..]);
        if key == "token" then Some(s.(token := value))
        else if key == "expires" then
          match Strtoul(value) { case None => None case Some(v) => Some(s.(expiresAt := v)) }
        else if key == "hmac" then Some(s.(hmac := value))
        else Some(s)
  }

  function ParseLines(ls: seq<string>, s: SessionState): Option<SessionState> {
    if ls == [] then Some(s)
    else
      match ParseLine(ls[0], s)
      case None => None
      case Some(next) => ParseLines(ls[1..], next)
  }

  function Complete(s: Option<SessionState>): Option<SessionState> {
    if s.None? || s.value.token == "" || s.value.expiresAt == 0 || s.value.hmac == "" then None else s
  }

  function Parse(raw: string): Option<SessionState> { Complete(ParseLines(Lines(raw), EMPTY_STATE)) }

  lemma ParseNext(ls: seq<string>, i: nat, s: SessionState)
    requires i < |ls|
    ensures ParseLines(ls[i..], s) ==
            match ParseLine(ls[i], s) { case None => None case Some(next) => ParseLines(ls[i + 1..], next) }
  {
    hide ParseLine;
    assert ls[i..][1..] == ls[i + 1..];
  }

  lemma ParseEnds(ls: seq<string>, s: SessionState)
    ensures ls[0..] == ls && ParseLines(ls[|ls|..], s) == Some(s)
  {
  }

  method ParseSession(raw: string) returns (r: Option<SessionState>)
    ensures r == Parse(raw)
  {
    hide ParseLines, Lines, Trim, Strtoul, Find;
    var lines := Lines(raw);
    var out := EMPTY_STATE;
    ParseEnds(lines, out);
    for i := 0 to |lines|
      invariant ParseLines(lines, EMPTY_STATE) == ParseLines(lines[i..], out)
    {
      ParseNext(lines, i, out);
      var line := DropCr(lines[i]);
      if line == "" {
        continue;
      }
      var pos := Find(line, ':');
      if pos.None? {
        return None;
      }
      var key, value := Trim(line[..pos.value]), Trim(line[pos.value + 1..]);
      if key == "token" {
        out := out.(token := value);
      } else if key == "expires" {
        var parsed := Strtoul(value);
        if parsed.None? {
          return None;
        }
        out := out.(expiresAt := parsed.value);
      } else if key == "hmac" {
        out := out.(hmac := value);
      }
    }
    ParseEnds(lines, out);
    if out.token == "" || out.expiresAt == 0 || out.hmac == "" {
      return None;
    }
    return Some(out);
  }

  function SessionLines(s: SessionState): seq<string> {
    ["token:" + s.token, "expires:" + Decimal(s.expiresAt), "hmac:" + s.hmac]
  }

  function Serialize(s: SessionState): string { Unlines(SessionLines(s)) }

  /** Fields that survive the text form. */
  predicate PlainText(v: string) { v != "" && '\n' !in v && !IsSpace(v[0]) && !IsSpace(v[|v| - 1]) }

  predicate Storable(s: SessionState) { PlainText(s.token) && PlainText(s.hmac) && s.expiresAt <= ULONG_MAX }

  predicate KeyLetters(k: string) { k != "" && forall i :: 0 <= i < |k| ==> 'a' <= k[i] <= 'z' }

  lemma FieldLine(k: string, v: string)
    requires KeyLetters(k) && PlainText(v)
    ensures var line := k + ":" + v;
            && '\n' !in line && line != "" && DropCr(line) == line
            && Find(line, ':') == Some(|k|) && Trim(line[..|k|]) == k && Trim(line[|k| + 1..]) == v
  {
    hide Find, Trim;
    var line := k + ":" + v;
    assert line == k + [':'] + v;
    FindFirst(k, ':', v);
    TrimIdIff(k);
    TrimIdIff(v);
    assert line[..|k|] == k && line[|k| + 1..] == v && line[|line| - 1] == v[|v| - 1];
  }

  lemma DecimalIsPlain(n: nat)
    requires n <= ULONG_MAX
    ensures PlainText(Decimal(n)) && Strtoul(Decimal(n)) == Some(n)
  {
    hide Decimal, Strtoul, NumberOf;
    var d := Decimal(n);
    assert d[0] in d && d[|d| - 1] in d;
    NumberOfDecimal(n);
    DigitsAreRead(d);
  }

  /** Each of the three lines sets its field. */
  lemma AnyLineIsRead(token: string, expiresAt: nat, hmac: string, s: SessionState)
    requires PlainText(token) && PlainText(hmac) && expiresAt <= ULONG_MAX
    ensures ParseLine("token:" + token, s) == Some(s.(token := token))
    ensures ParseLine("expires:" + Decimal(expiresAt), s) == Some(s.(expiresAt := expiresAt))
    ensures ParseLine("hmac:" + hmac, s) == Some(s.(hmac := hmac))
    ensures '\n' !in "token:" + token && '\n' !in "expires:" + Decimal(expiresAt) && '\n' !in "hmac:" + hmac
  {
    hide Decimal, Strtoul, PlainText, Trim, Find, DropCr;
    DecimalIsPlain(expiresAt);
    FieldLine("token", token);
    FieldLine("expires", Decimal(expiresAt));
    FieldLine("hmac", hmac);
    assert "token" + ":" == "token:" && "expires" + ":" == "expires:" && "hmac" + ":" == "hmac:";
  }

  lemma LinesAreRead(s: SessionState)
    requires Storable(s)
    ensures ParseLine("token:" + s.token, EMPTY_STATE) == Some(SessionState(s.token, 0, ""))
    ensures ParseLine("expires:" + Decimal(s.expiresAt), SessionState(s.token, 0, "")) == Some(SessionState(s.token, s.expiresAt, ""))
    ensures ParseLine("hmac:" + s.hmac, SessionState(s.token, s.expiresAt, "")) == Some(s)
    ensures SingleLines(SessionLines(s))
  {
    hide Decimal, PlainText, ParseLine;
    AnyLineIsRead(s.token, s.expiresAt, s.hmac, EMPTY_STATE);
    AnyLineIsRead(s.token, s.expiresAt, s.hmac, SessionState(s.token, 0, ""));
    AnyLineIsRead(s.token, s.expiresAt, s.hmac, SessionState(s.token, s.expiresAt, ""));
  }

  lemma ParseCons(l: string, rest: seq<string>, s: SessionState)
    ensures ParseLines([l] + rest, s) ==
            match ParseLine(l, s) { case None => None case Some(next) => ParseLines(rest, next) }
  {
    hide ParseLine;
    assert ([l] + rest)[1..] == rest;
  }

  lemma SessionLinesAre(s: SessionState)
    ensures SessionLines(s) == ["token:" + s.token] + (["expires:" + Decimal(s.expiresAt)] + (["hmac:" + s.hmac] + []))
    ensures Lines("") == []
  {
  }

  /** The daemons read back the session they wrote; an expiry of zero reads as a missing one. */
  lemma SessionRoundTrip(s: SessionState)
    requires Storable(s)
    ensures Parse(Serialize(s)) == if s.expiresAt == 0 then None else Some(s)
  {
    hide Lines, Unlines, ParseLine, Decimal, SessionLines;
    LinesAreRead(s);
    SessionLinesAre(s);
    var ls := SessionLines(s);
    LinesOfUnlines(ls, "");
    assert Unlines(ls) + "" == Unlines(ls) && ls + [] == ls;
    var l2, l3 := "expires:" + Decimal(s.expiresAt), "hmac:" + s.hmac;
    ParseCons("token:" + s.token, [l2] + ([l3] + []), EMPTY_STATE);
    ParseCons(l2, [l3] + [], SessionState(s.token, 0, ""));
    ParseCons(l3, [], SessionState(s.token, s.expiresAt, ""));
    ParseEnds([], s);
    NotEmpty(s);
  }

  lemma NotEmpty(s: SessionState)
    requires Storable(s)
    ensures s.token != "" && s.hmac != ""
  {
  }

  lemma TwoLines(l1: string, l2: string, s: SessionState, t: SessionState)
    requires ParseLine(l1, EMPTY_STATE) == Some(s) && ParseLine(l2, s) == Some(t) && '\n' !in l1 && '\n' !in l2
    ensures Parse(Unlines([l1] + ([l2] + []))) == Complete(Some(t))
  {
    hide Lines, Unlines, ParseLine, Complete;
    var ls := [l1] + ([l2] + []);
    LinesOfUnlines(ls, "");
    assert Lines("") == [] by { SessionLinesAre(EMPTY_STATE); }
    assert Unlines(ls) + "" == Unlines(ls) && ls + [] == ls;
    ParseCons(l1, [l2] + [], EMPTY_STATE);
    ParseCons(l2, [], s);
    ParseEnds([], t);
  }

  /** A session file that lacks one of its three lines is refused. */
  lemma MissingLineRefused(token: string, expiresAt: nat, hmac: string)
    requires PlainText(token) && PlainText(hmac) && expiresAt <= ULONG_MAX
    ensures Parse(Unlines(["expires:" + Decimal(expiresAt)] + (["hmac:" + hmac] + []))) == None
    ensures Parse(Unlines(["token:" + token] + (["hmac:" + hmac] + []))) == None
    ensures Parse(Unlines(["token:" + token] + (["expires:" + Decimal(expiresAt)] + []))) == None
  {
    hide Decimal, Unlines, Parse, ParseLine, Complete, PlainText;
    var t, e, h := "token:" + token, "expires:" + Decimal(expiresAt), "hmac:" + hmac;
    AnyLineIsRead(token, expiresAt, hmac, SessionState("", 0, ""));
    AnyLineIsRead(token, expiresAt, hmac, SessionState(token, 0, ""));
    AnyLineIsRead(token, expiresAt, hmac, SessionState("", expiresAt, ""));
    TwoLines(e, h, SessionState("", expiresAt, ""), SessionState("", expiresAt, hmac));
    TwoLines(t, h, SessionState(token, 0, ""), SessionState(token, 0, hmac));
    TwoLines(t, e, SessionState(token, 0, ""), SessionState(token, expiresAt, ""));
    NotComplete(token, expiresAt, hmac);
  }

  lemma NotComplete(token: string, expiresAt: nat, hmac: string)
    ensures Complete(Some(SessionState("", expiresAt, hmac))).None?
    ensures Complete(Some(SessionState(token, 0, hmac))).None?
    ensures Complete(Some(SessionState(token, expiresAt, ""))).None?
  {
  }

  // ----- the authenticated payload -----

  function Payload(token: string, expiresAt: nat): string { token + "|" + Decimal(expiresAt) }

  lemma {:induction false} DecimalInjective(a: nat, b: nat)
    requires Decimal(a) == Decimal(b)
    ensures a == b
  {
    NumberOfDecimal(a);
    NumberOfDecimal(b);
  }

  /** Different tokens or expiry times never share a payload, whatever the token holds. */
  lemma PayloadInjective(t: string, a: nat, u: string, b: nat)
    requires Payload(t, a) == Payload(u, b)
    ensures t == u && a == b
  {
    hide Decimal;
    var p, x, y := Payload(t, a), Decimal(a), Decimal(b);
    assert p[|t|] == '|' && p[|u|] == '|';
    assert forall i :: |t| < i < |p| ==> p[i] in x && IsDigit(p[i]);
    assert forall i :: |u| < i < |p| ==> p[i] in y && IsDigit(p[i]);
    assert |t| == |u|;
    assert t == p[..|t|] && u == p[..|u|] && x == p[|t| + 1..] && y == p[|u| + 1..];
    DecimalInjective(a, b);
  }

  type Mac = string -> string

  ghost predicate Injective(mac: Mac) { forall x, y :: mac(x) == mac(y) ==> x == y }

  function Sealed(token: string, expiresAt: nat, mac: Mac): SessionState {
    SessionState(token, expiresAt, mac(Payload(token, expiresAt)))
  }

  /** A state whose MAC matches its content. */
  predicate Authentic(s: SessionState, mac: Mac) { s.hmac == mac(Payload(s.token, s.expiresAt)) }

  // ----- the history of a session file -----

  /** The two ways in which a daemon comes to seal a state at time `at`. */
  datatype Event = Issued(token: string, at: nat) | Accepted(token: string, at: nat)

  /** The expiry a daemon seals at a given time, in 64-bit arithmetic. */
  function Expiry(now: nat): (e: nat)
    ensures e <= ULONG_MAX && e <= now + LIFETIME
  {
    (now + LIFETIME) % (ULONG_MAX + 1)
  }

  function SealedBy(e: Event, mac: Mac): SessionState { Sealed(e.token, Expiry(e.at), mac) }

  /** Event k is an issue of its token, or follows an earlier event for the same token less
      than the lifetime before it, which is itself linked to an issue. */
  ghost predicate Linked(log: seq<Event>, k: nat)
    requires k < |log|
    decreases k
  {
    || log[k].Issued?
    || exists j: nat :: j < k && log[j].token == log[k].token && log[k].at < log[j].at + LIFETIME && Linked(log, j)
  }

  ghost predicate AllLinked(log: seq<Event>) {
    forall k: nat :: k < |log| ==> Linked(log, k)
  }

  /** A MAC that matches is one a daemon computed: nobody else can compute one. */
  predicate Unforged(text: string, log: seq<Event>, mac: Mac) {
    var s := Parse(text);
    s.Some? && Authentic(s.value, mac) ==>
      exists j :: 0 <= j < |log| && SealedBy(log[j], mac).hmac == s.value.hmac
  }

  lemma {:induction false} LinkedExtends(log: seq<Event>, e: Event, k: nat)
    requires k < |log| && Linked(log, k)
    ensures Linked(log + [e], k)
    decreases k
  {
    var more := log + [e];
    assert more[k] == log[k];
    if !log[k].Issued? {
      var j: nat :| j < k && log[j].token == log[k].token && log[k].at < log[j].at + LIFETIME && Linked(log, j);
      LinkedExtends(log, e, j);
      assert more[j] == log[j];
    }
  }

  lemma AllLinkedExtends(log: seq<Event>, e: Event)
    requires AllLinked(log) && Linked(log + [e], |log|)
    ensures AllLinked(log + [e])
  {
    hide Linked;
    forall k: nat | k < |log|
      ensures Linked(log + [e], k)
    {
      LinkedExtends(log, e, k);
    }
  }

  /** Accepting an authentic, unexpired state links the acceptance to the event that sealed
      the state. */
  lemma AcceptanceIsLinked(text: string, log: seq<Event>, mac: Mac, now: nat)
    requires Injective(mac) && AllLinked(log) && Unforged(text, log, mac)
    requires Parse(text).Some? && Authentic(Parse(text).value, mac) && now < Parse(text).value.expiresAt
    ensures AllLinked(log + [Accepted(Parse(text).value.token, now)])
  {
    hide Parse, Payload;
    var s := Parse(text).value;
    var more := log + [Accepted(s.token, now)];
    var j: nat :| j < |log| && SealedBy(log[j], mac).hmac == s.hmac;
    PayloadInjective(s.token, s.expiresAt, log[j].token, Expiry(log[j].at));
    LinkedExtends(log, Accepted(s.token, now), j);
    assert more[j] == log[j] && more[|log|] == Accepted(s.token, now);
    AllLinkedExtends(log, Accepted(s.token, now));
  }

  lemma UnforgedExtends(text: string, log: seq<Event>, e: Event, mac: Mac)
    requires Unforged(text, log, mac)
    ensures Unforged(text, log + [e], mac)
  {
    hide Parse, SealedBy;
    var s := Parse(text);
    if s.Some? && Authentic(s.value, mac) {
      var j :| 0 <= j < |log| && SealedBy(log[j], mac).hmac == s.value.hmac;
      assert (log + [e])[j] == log[j];
    }
  }

  /** What a daemon writes is unforged. */
  lemma SealedIsUnforged(s: SessionState, log: seq<Event>, e: Event, mac: Mac)
    requires s == SealedBy(e, mac) && Storable(s)
    ensures Unforged(Serialize(s), log + [e], mac)
  {
    hide Parse, Serialize, SealedBy;
    SessionRoundTrip(s);
    assert (log + [e])[|log|] == e;
  }

  // ----- the daemons -----

  /** What the model asks of the MAC: injective, with output that fits into the file. */
  ghost predicate GoodMac(mac: Mac) { Injective(mac) && forall x :: PlainText(mac(x)) }

  ghost predicate PlainTokens(log: seq<Event>) {
    forall k :: 0 <= k < |log| ==> PlainText(log[k].token)
  }

  /** The tests of validateSessionToken that do not depend on the crypto layer working. */
  predicate Acceptable(text: Option<string>, token: string, now: nat, mac: Mac) {
    && token != "" && text.Some?
    && var s := Parse(text.value);
       s.Some? && Authentic(s.value, mac) && now < s.value.expiresAt && s.value.token == token
  }

  datatype Daemon = Apmd | Amsd

  /** What a daemon is doing with its one request: a token is to be checked against the file
      content it has read, or a sealed state is to be written, for which the file is first
      opened and truncated. */
  datatype Work =
    | Idle
    | Checking(token: string, seen: Option<string>)
    | Writing(state: SessionState, truncated: bool)

  ghost predicate WorkOk(w: Work, log: seq<Event>, mac: Mac) {
    match w
    case Idle => true
    case Checking(_, seen) => seen.Some? ==> Unforged(seen.value, log, mac)
    case Writing(state, _) => SealedIn(log, state, mac)
  }

  /** The state was sealed by one of the events. */
  ghost predicate SealedIn(log: seq<Event>, state: SessionState, mac: Mac) {
    exists j :: 0 <= j < |log| && state == SealedBy(log[j], mac)
  }

  /** Everything the daemons keep true of a file content, of their own work and of the history. */
  ghost predicate Kept(text: Option<string>, apmd: Work, amsd: Work, log: seq<Event>, mac: Mac) {
    && AllLinked(log) && PlainTokens(log) && (text.Some? ==> Unforged(text.value, log, mac))
    && WorkOk(apmd, log, mac) && WorkOk(amsd, log, mac)
  }

  lemma WorkOkExtends(w: Work, log: seq<Event>, e: Event, mac: Mac)
    requires WorkOk(w, log, mac)
    ensures WorkOk(w, log + [e], mac)
  {
    hide SealedBy, Unforged;
    if w.Checking? && w.seen.Some? {
      UnforgedExtends(w.seen.value, log, e, mac);
    } else if w.Writing? {
      var j :| 0 <= j < |log| && w.state == SealedBy(log[j], mac);
      assert (log + [e])[j] == log[j];
    }
  }

  /** One more event keeps all of it. */
  lemma KeptExtends(text: Option<string>, apmd: Work, amsd: Work, log: seq<Event>, e: Event, mac: Mac)
    requires Kept(text, apmd, amsd, log, mac) && AllLinked(log + [e]) && PlainText(e.token)
    ensures Kept(text, apmd, amsd, log + [e], mac)
    ensures SealedIn(log + [e], SealedBy(e, mac), mac)
  {
    hide AllLinked, Unforged, PlainText, SealedBy, WorkOk;
    if text.Some? {
      UnforgedExtends(text.value, log, e, mac);
    }
    WorkOkExtends(apmd, log, e, mac);
    WorkOkExtends(amsd, log, e, mac);
    PlainTokensExtend(log, e);
    assert (log + [e])[|log|] == e;
  }

  /** A refresh that is written late is as good as one written at once. */
  lemma LateWrite(state: SessionState, log: seq<Event>, mac: Mac)
    requires GoodMac(mac) && PlainTokens(log) && SealedIn(log, state, mac)
    ensures Unforged(Serialize(state), log, mac)
  {
    hide Parse, Serialize, PlainText;
    var j :| 0 <= j < |log| && state == SealedBy(log[j], mac);
    assert PlainText(log[j].token);
    SessionRoundTrip(state);
  }

  lemma NothingWritten(log: seq<Event>, mac: Mac)
    ensures Unforged("", log, mac)
  {
  }

  /** The session file, what each daemon is doing, and the history. Each daemon handles one
      request at a time; between any two steps of one the other may take any number. */
  class SessionFile {
    var text: Option<string>
    var log: seq<Event>
    var apmd: Work
    var amsd: Work

    constructor ()
      ensures text == None && log == [] && apmd == Idle && amsd == Idle
    {
      text, log, apmd, amsd := None, [], Idle, Idle;
    }

    ghost predicate Valid(mac: Mac)
      reads this
    {
      Kept(text, apmd, amsd, log, mac)
    }

    function WorkOf(d: Daemon): Work
      reads this
    {
      if d == Apmd then apmd else amsd
    }

    /** The other daemon is where it was. */
    twostate predicate OnlyMoved(d: Daemon)
      reads this
    {
      if d == Apmd then amsd == old(amsd) else apmd == old(apmd)
    }

    method Become(d: Daemon, w: Work)
      modifies this`apmd, this`amsd
      ensures WorkOf(d) == w && OnlyMoved(d)
    {
      if d == Apmd {
        apmd := w;
      } else {
        amsd := w;
      }
    }

    /** issueSession up to the write: the state is sealed and the issue noted. */
    method BeginIssue(token: string, now: nat, mac: Mac) returns (ok: bool)
      requires GoodMac(mac) && Valid(mac) && PlainText(token) && apmd.Idle?
      modifies this`log, this`apmd
      ensures Valid(mac)
      ensures if ok then log == old(log) + [Issued(token, now)] && apmd == Writing(SealedBy(Issued(token, now), mac), false)
              else log == old(log) && apmd.Idle?
    {
      hide AllLinked, Unforged, PlainText, GoodMac, PlainTokens, SealedBy, SealedIn;
      ok := *;
      if !ok {
        return;
      }
      IssueIsLinked(log, token, now);
      KeptExtends(text, apmd, amsd, log, Issued(token, now), mac);
      log := log + [Issued(token, now)];
      apmd := Writing(Sealed(token, Expiry(now), mac), false);
      assert Sealed(token, Expiry(now), mac) == SealedBy(Issued(token, now), mac) by { SealedIs(token, now, mac); }
    }

    /** The start of validateSessionToken: an empty token is refused, otherwise the file is
        read; `broken` if it cannot be. */
    method Load(d: Daemon, token: string, mac: Mac) returns (broken: bool)
      requires Valid(mac) && WorkOf(d).Idle?
      modifies this`apmd, this`amsd
      ensures Valid(mac) && OnlyMoved(d)
      ensures WorkOf(d) == if token == "" || broken then Idle else Checking(token, text)
    {
      hide AllLinked, Unforged, PlainTokens;
      broken := false;
      if token == "" {
        return;
      }
      broken := *;
      if !broken {
        Become(d, Checking(token, text));
      }
    }

    /** The tests of validateSessionToken on what was read; the same in both daemons. An
        accepted token is refreshed by a write that is still to come, unless the new MAC cannot
        be computed. `broken` reports that the MAC to compare with could not be. */
    method Decide(d: Daemon, now: nat, mac: Mac) returns (accepted: bool, broken: bool)
      requires GoodMac(mac) && Valid(mac) && WorkOf(d).Checking?
      modifies this`log, this`apmd, this`amsd
      ensures Valid(mac) && OnlyMoved(d)
      ensures var w := old(WorkOf(d));
              && accepted == (Acceptable(w.seen, w.token, now, mac) && !broken)
              && log == (if accepted then old(log) + [Accepted(w.token, now)] else old(log))
              && (WorkOf(d).Idle? || (accepted && WorkOf(d) == Writing(SealedBy(Accepted(w.token, now), mac), false)))
    {
      hide AllLinked, Unforged, Serialize, PlainText, Parse, PlainTokens, SealedBy, SealedIn, Kept;
      var token, seen := WorkOf(d).token, WorkOf(d).seen;
      DaemonKept(text, apmd, amsd, log, mac);
      accepted, broken := false, false;
      if token == "" || seen.None? {
        KeptIdle(text, apmd, amsd, log, mac);
        Become(d, Idle);
        return;
      }
      var parsed := ParseSession(seen.value);
      KeptIdle(text, apmd, amsd, log, mac);
      if parsed.None? {
        Become(d, Idle);
        return;
      }
      broken := *;
      if broken {
        Become(d, Idle);
        return;
      }
      var state := parsed.value;
      var expectedHmac := mac(Payload(state.token, state.expiresAt));
      if expectedHmac != state.hmac || now >= state.expiresAt || state.token != token {
        Become(d, Idle);
        return;
      }
      accepted := true;
      ghost var e := Accepted(token, now);
      AcceptanceIsLinked(seen.value, log, mac, now);
      AcceptedIsPlain(seen.value, log, mac);
      KeptExtends(text, apmd, amsd, log, e, mac);
      KeptIdle(text, apmd, amsd, log + [e], mac);
      log := log + [Accepted(token, now)];
      var refresh: bool := *;
      if refresh {
        SealedIs(token, now, mac);
        KeptWriting(text, apmd, amsd, log, Sealed(token, Expiry(now), mac), mac);
        Become(d, Writing(Sealed(token, Expiry(now), mac), false));
      } else {
        Become(d, Idle);
      }
    }

    /** The start of writeSession: opening the file truncates it, before any lock is taken. */
    method Open(d: Daemon, mac: Mac) returns (ok: bool)
      requires Valid(mac) && WorkOf(d).Writing? && !WorkOf(d).truncated
      modifies this`text, this`apmd, this`amsd
      ensures Valid(mac) && OnlyMoved(d)
      ensures text == if ok then Some("") else old(text)
      ensures WorkOf(d) == if ok then Writing(old(WorkOf(d)).state, true) else Idle
    {
      hide AllLinked, Unforged, PlainTokens, SealedIn;
      ok := *;
      if ok {
        NothingWritten(log, mac);
        text := Some("");
        Become(d, Writing(WorkOf(d).state, true));
      } else {
        Become(d, Idle);
      }
    }

    /** The rest of it, under the lock. A failing write may leave the file as it was; anything
        else it may leave is a later step of an outsider. */
    method Finish(d: Daemon, mac: Mac) returns (ok: bool)
      requires GoodMac(mac) && Valid(mac) && WorkOf(d).Writing? && WorkOf(d).truncated
      modifies this`text, this`apmd, this`amsd
      ensures Valid(mac) && OnlyMoved(d) && WorkOf(d).Idle?
      ensures text == if ok then Some(Serialize(old(WorkOf(d)).state)) else old(text)
    {
      hide AllLinked, Unforged, PlainTokens, SealedIn, GoodMac, Serialize;
      ok := *;
      if ok {
        LateWrite(WorkOf(d).state, log, mac);
        text := Some(Serialize(WorkOf(d).state));
      }
      Become(d, Idle);
    }

    /** writeSession with no step of the other daemon in between. */
    method WriteSession(d: Daemon, mac: Mac) returns (ok: bool)
      requires GoodMac(mac) && Valid(mac) && WorkOf(d).Writing? && !WorkOf(d).truncated
      modifies this`text, this`apmd, this`amsd
      ensures Valid(mac) && OnlyMoved(d) && WorkOf(d).Idle?
      ensures ok ==> text == Some(Serialize(old(WorkOf(d)).state))
    {
      hide Kept, GoodMac, Serialize;
      ok := Open(d, mac);
      if ok {
        ok := Finish(d, mac);
      }
    }

    method IssueSession(token: string, now: nat, mac: Mac) returns (ok: bool)
      requires GoodMac(mac) && Valid(mac) && PlainText(token) && apmd.Idle?
      modifies this
      ensures Valid(mac) && apmd.Idle? && amsd == old(amsd)
      ensures log == old(log) || log == old(log) + [Issued(token, now)]
      ensures ok ==> log == old(log) + [Issued(token, now)] && text == Some(Serialize(Sealed(token, Expiry(now), mac)))
    {
      hide Kept, GoodMac, Serialize, PlainText;
      ok := BeginIssue(token, now, mac);
      if ok {
        ok := WriteSession(Apmd, mac);
      }
    }

    /** validateSessionToken with no step of the other daemon in between. */
    method ValidateSessionToken(d: Daemon, token: string, now: nat, mac: Mac) returns (accepted: bool, broken: bool)
      requires GoodMac(mac) && Valid(mac) && WorkOf(d).Idle?
      modifies this
      ensures Valid(mac) && OnlyMoved(d) && WorkOf(d).Idle?
      ensures accepted == (Acceptable(old(text), token, now, mac) && !broken)
      ensures log == if accepted then old(log) + [Accepted(token, now)] else old(log)
      ensures !accepted ==> text == old(text)
    {
      hide Kept, GoodMac, Serialize, PlainText, SealedBy, Parse;
      accepted := false;
      broken := Load(d, token, mac);
      if token == "" || broken {
        return;
      }
      accepted, broken := Decide(d, now, mac);
      if WorkOf(d).Writing? {
        var _ := WriteSession(d, mac);
      }
    }

    /** Anyone else may replace the file by anything that is not forged. */
    method Replace(newText: Option<string>, mac: Mac)
      requires Valid(mac)
      modifies this`text
      ensures Valid(mac)
    {
      hide AllLinked, PlainTokens, WorkOk;
      if newText.None? || Unforged(newText.value, log, mac) {
        text := newText;
      }
    }
  }

  lemma SealedIs(token: string, now: nat, mac: Mac)
    ensures Sealed(token, Expiry(now), mac) == SealedBy(Issued(token, now), mac) == SealedBy(Accepted(token, now), mac)
  {
  }

  lemma DaemonKept(text: Option<string>, apmd: Work, amsd: Work, log: seq<Event>, mac: Mac)
    requires Kept(text, apmd, amsd, log, mac)
    ensures AllLinked(log) && PlainTokens(log)
    ensures forall w :: (w == apmd || w == amsd) && w.Checking? && w.seen.Some? ==> Unforged(w.seen.value, log, mac)
  {
  }

  lemma KeptIdle(text: Option<string>, apmd: Work, amsd: Work, log: seq<Event>, mac: Mac)
    requires Kept(text, apmd, amsd, log, mac)
    ensures Kept(text, Idle, amsd, log, mac) && Kept(text, apmd, Idle, log, mac)
  {
  }

  lemma KeptWriting(text: Option<string>, apmd: Work, amsd: Work, log: seq<Event>, state: SessionState, mac: Mac)
    requires Kept(text, apmd, amsd, log, mac) && SealedIn(log, state, mac)
    ensures Kept(text, Writing(state, false), amsd, log, mac) && Kept(text, apmd, Writing(state, false), log, mac)
  {
  }

  lemma IssueIsLinked(log: seq<Event>, token: string, now: nat)
    requires AllLinked(log)
    ensures AllLinked(log + [Issued(token, now)])
  {
    hide AllLinked;
    AllLinkedExtends(log, Issued(token, now));
  }

  lemma AcceptedIsPlain(text: string, log: seq<Event>, mac: Mac)
    requires Injective(mac) && PlainTokens(log) && Unforged(text, log, mac)
    requires Parse(text).Some? && Authentic(Parse(text).value, mac)
    ensures PlainText(Parse(text).value.token)
  {
    hide Parse, Payload, PlainText;
    var s := Parse(text).value;
    var j: nat :| j < |log| && SealedBy(log[j], mac).hmac == s.hmac;
    PayloadInjective(s.token, s.expiresAt, log[j].token, Expiry(log[j].at));
  }

  lemma PlainTokensExtend(log: seq<Event>, e: Event)
    requires PlainTokens(log) && PlainText(e.token)
    ensures PlainTokens(log + [e])
  {
  }

  /** A session written at time t is accepted for its token exactly until its sealed expiry;
      that is t + 180 unless the clock is about to wrap. */
  lemma RollingWindow(e: Event, token: string, now: nat, mac: Mac)
    requires GoodMac(mac) && PlainText(e.token)
    ensures Acceptable(Some(Serialize(SealedBy(e, mac))), token, now, mac) <==> token == e.token && now < Expiry(e.at)
    ensures e.at + 180 < 0x1_0000_0000_0000_0000 ==> Expiry(e.at) == e.at + 180
  {
    hide Parse, Serialize;
    SessionRoundTrip(SealedBy(e, mac));
  }

  // ----- whole runs -----

  /** One step of one of the processes. */
  datatype Step =
    | Issue(token: string, now: nat)
    | Request(daemon: Daemon, token: string)
    | Check(daemon: Daemon, now: nat)
    | Truncate(daemon: Daemon)
    | Store(daemon: Daemon)
    | Outside(text: Option<string>)

  /** Every issue in the history is one of the steps. */
  ghost predicate IssuesAreSteps(log: seq<Event>, steps: seq<Step>) {
    forall k :: 0 <= k < |log| && log[k].Issued? ==> Issue(log[k].token, log[k].at) in steps
  }

  /** The daemon was asked about the token in one of the first n steps. */
  ghost predicate Asked(steps: seq<Step>, n: nat, d: Daemon, token: string)
    requires n <= |steps|
  {
    Request(d, token) in steps[..n]
  }

  ghost predicate WorkAsked(steps: seq<Step>, n: nat, d: Daemon, w: Work)
    requires n <= |steps|
  {
    w.Checking? ==> Asked(steps, n, d, w.token)
  }

  /** What step k accepted: a token the daemon had been asked about before. */
  ghost predicate AcceptedIn(steps: seq<Step>, k: nat, token: string, log: seq<Event>)
    requires k < |steps|
  {
    steps[k].Check? && Asked(steps, k, steps[k].daemon, token) && Accepted(token, steps[k].now) in log
  }

  lemma AskedLater(steps: seq<Step>, n: nat, d: Daemon, token: string)
    requires n < |steps|
    ensures Asked(steps, n, d, token) || steps[n] == Request(d, token) ==> Asked(steps, n + 1, d, token)
  {
    assert steps[..n + 1] == steps[..n] + [steps[n]];
  }

  /** Takes the step, if the daemon is at that point of its work. */
  method Take(file: SessionFile, step: Step, mac: Mac) returns (token: Option<string>)
    requires GoodMac(mac) && file.Valid(mac) && (step.Issue? ==> PlainText(step.token))
    modifies file
    ensures file.Valid(mac)
    ensures token.Some? ==>
              && step.Check? && old(file.WorkOf(step.daemon)).Checking?
              && token.value == old(file.WorkOf(step.daemon)).token
    ensures file.log == old(file.log)
            || (token.Some? && file.log == old(file.log) + [Accepted(token.value, step.now)])
            || (step.Issue? && file.log == old(file.log) + [Issued(step.token, step.now)])
    ensures token.Some? ==> file.log != old(file.log)
    ensures forall d :: file.WorkOf(d).Checking? ==>
                          || file.WorkOf(d) == old(file.WorkOf(d))
                          || step == Request(d, file.WorkOf(d).token)
  {
    hide Kept, PlainText, GoodMac, Serialize, SealedBy, Acceptable;
    token := None;
    match step {
      case Issue(t, now) =>
        if file.apmd.Idle? {
          var _ := file.BeginIssue(t, now, mac);
        }
      case Request(d, t) =>
        if file.WorkOf(d).Idle? {
          var _ := file.Load(d, t, mac);
        }
      case Check(d, now) =>
        if file.WorkOf(d).Checking? {
          var t := file.WorkOf(d).token;
          var accepted, broken := file.Decide(d, now, mac);
          token := if accepted then Some(t) else None;
        }
      case Truncate(d) =>
        if file.WorkOf(d).Writing? && !file.WorkOf(d).truncated {
          var _ := file.Open(d, mac);
        }
      case Store(d) =>
        if file.WorkOf(d).Writing? && file.WorkOf(d).truncated {
          var _ := file.Finish(d, mac);
        }
      case Outside(text) =>
        file.Replace(text, mac);
    }
  }

  /** Any interleaving of the single steps of both daemons, reads, decisions, truncations and
      writes, with outsiders who cannot compute the MAC: every accepted token was asked about
      and goes back, through acceptances each less than 180 seconds after the one before, to a
      step that issued it. */
  method Play(steps: seq<Step>, mac: Mac) returns (accepted: seq<Option<string>>, log: seq<Event>)
    requires GoodMac(mac) && forall k :: 0 <= k < |steps| && steps[k].Issue? ==> PlainText(steps[k].token)
    ensures |accepted| == |steps|
    ensures forall k :: 0 <= k < |steps| && accepted[k].Some? ==> AcceptedIn(steps, k, accepted[k].value, log)
    ensures AllLinked(log) && IssuesAreSteps(log, steps)
  {
    hide AllLinked, Kept, PlainText, GoodMac, Asked;
    var file := new SessionFile();
    NoHistory(mac);
    accepted := [];
    for i := 0 to |steps|
      invariant |accepted| == i && file.Valid(mac) && IssuesAreSteps(file.log, steps)
      invariant forall d :: WorkAsked(steps, i, d, file.WorkOf(d))
      invariant forall k :: 0 <= k < i && accepted[k].Some? ==> AcceptedIn(steps, k, accepted[k].value, file.log)
    {
      ghost var before, apmd0, amsd0 := file.log, file.apmd, file.amsd;
      assert steps[i] in steps && WorkAsked(steps, i, Apmd, file.WorkOf(Apmd)) && WorkAsked(steps, i, Amsd, file.WorkOf(Amsd));
      var token := Take(file, steps[i], mac);
      forall d
        ensures WorkAsked(steps, i + 1, d, file.WorkOf(d))
      {
        assert WorkAsked(steps, i, d, if d == Apmd then apmd0 else amsd0);
        if file.WorkOf(d).Checking? {
          AskedLater(steps, i, d, file.WorkOf(d).token);
        }
      }
      if token.Some? {
        assert WorkAsked(steps, i, steps[i].daemon, if steps[i].daemon == Apmd then apmd0 else amsd0);
        assert file.log[|before|] == Accepted(token.value, steps[i].now);
      }
      accepted := accepted + [token];
    }
    KeptIsLinked(file.text, file.apmd, file.amsd, file.log, mac);
    log := file.log;
  }

  lemma NoHistory(mac: Mac)
    ensures Kept(None, Idle, Idle, [], mac)
  {
  }

  lemma KeptIsLinked(text: Option<string>, apmd: Work, amsd: Work, log: seq<Event>, mac: Mac)
    requires Kept(text, apmd, amsd, log, mac)
    ensures AllLinked(log)
  {
    hide AllLinked;
  }

  /** What the order of writes does not give: amsd accepts an old token, apmd then issues a new
      one, and the refresh of the old one is written last. The new token is refused from then
      on, and the old one is accepted again. */
  method LateRefresh(mac: Mac, older: string, newer: string, now: nat) returns (file: SessionFile, ran: bool)
    requires GoodMac(mac) && PlainText(older) && PlainText(newer) && older != newer && now + 2 * LIFETIME <= ULONG_MAX
    ensures ran ==> Acceptable(file.text, older, now + 10, mac) && !Acceptable(file.text, newer, now + 10, mac)
    ensures ran ==> file.log == [Issued(older, now), Accepted(older, now + 1), Issued(newer, now + 2)]
  {
    hide Kept, GoodMac, PlainText, Serialize, Acceptable, Parse, Sealed, SealedBy, Expiry;
    NoHistory(mac);
    file := new SessionFile();
    SealedIs(older, now, mac);
    ran := file.IssueSession(older, now, mac);
    if !ran {
      return;
    }
    var unread := file.Load(Amsd, older, mac);
    if unread || older == "" {
      return file, false;
    }
    var accepted, broken := file.Decide(Amsd, now + 1, mac);
    if broken || !file.amsd.Writing? {
      return file, false;
    }
    ran := file.IssueSession(newer, now + 2, mac);
    if !ran {
      return;
    }
    ran := file.WriteSession(Amsd, mac);
    RollingWindow(Accepted(older, now + 1), older, now + 10, mac);
    RollingWindow(Accepted(older, now + 1), newer, now + 10, mac);
  }
}
