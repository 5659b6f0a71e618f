/** The lockout after wrong recovery answers. Key derivation is an arbitrary partial
    function. */
module Recovery {
  import opened Wrappers
  import opened Text
  import Session

  const COOLDOWN := 300

  datatype StoredQuestion = StoredQuestion(salt: string, answerHash: string)

  /** Key derivation from an answer and a salt; None stands for a failing crypto layer. */
  type Derive = (string, string) -> Option<string>

  datatype Verdict = Locked | NotConfigured | Incomplete | CryptoFailed | Wrong | Right | Shown

  // ----- comparing answers -----

  /** The answers from position i on, compared one by one. */
  function Compare(answers: seq<string>, stored: seq<StoredQuestion>, derive: Derive, i: nat): Verdict
    requires i <= |stored| == |answers|
    decreases |stored| - i
  {
    if i == |stored| then Right
    else
      match derive(answers[i], stored[i].salt)
      case None => CryptoFailed
      case Some(attempt) => if attempt != stored[i].answerHash then Wrong else Compare(answers, stored, derive, i + 1)
  }

  predicate Matches(answers: seq<string>, stored: seq<StoredQuestion>, derive: Derive, i: nat)
    requires i < |stored| == |answers|
  {
    derive(answers[i], stored[i].salt) == Some(stored[i].answerHash)
  }

  /** Right means that every answer matches; Wrong that one does not, after only matches. */
  lemma {:induction false} CompareIs(answers: seq<string>, stored: seq<StoredQuestion>, derive: Derive, i: nat)
    requires i <= |stored| == |answers|
    ensures var v := Compare(answers, stored, derive, i);
            && (v == Right <==> forall k :: i <= k < |stored| ==> Matches(answers, stored, derive, k))
            && (v == Wrong <==> exists k :: i <= k < |stored| && !Matches(answers, stored, derive, k)
                                            && derive(answers[k], stored[k].salt).Some?
                                            && forall j :: i <= j < k ==> Matches(answers, stored, derive, j))
            && (v == Right || v == Wrong || v == CryptoFailed)
    decreases |stored| - i
  {
    if i < |stored| && Matches(answers, stored, derive, i) {
      CompareIs(answers, stored, derive, i + 1);
    }
  }

  /** What an unlocked answer check decides. */
  function Check(answers: seq<string>, questions: Option<seq<StoredQuestion>>, derive: Derive): Verdict {
    match questions
    case None => NotConfigured
    case Some(stored) => if |answers| != |stored| then Incomplete else Compare(answers, stored, derive, 0)
  }

  // ----- the lockout file -----

  /** Does the lockout file keep the reset locked at this time? */
  predicate Locks(file: Option<string>, now: nat) {
    file.Some? && Strtoul(file.value).Some? && now < Strtoul(file.value).value
  }

  function Until(now: nat): (u: nat)
    ensures u <= ULONG_MAX && (now + 300 < 0x1_0000_0000_0000_0000 ==> u == now + 300)
  {
    (now + COOLDOWN) % (ULONG_MAX + 1)
  }

  lemma WrittenLocksIff(u: nat, now: nat)
    requires u <= ULONG_MAX
    ensures Locks(Some(Decimal(u)), now) <==> now < u
  {
    hide Decimal, Strtoul, NumberOf;
    NumberOfDecimal(u);
    DigitsAreRead(Decimal(u));
  }

  /** The lockout file. `faults` counts what nobody notices: a read that shows no file or only
      the start of one, and a lockout that was not written, or not to its end. */
  class Lockout {
    var file: Option<string>
    var faults: nat

    constructor ()
      ensures file == None && faults == 0
    {
      file, faults := None, 0;
    }

    /** A removal whose failure goes unnoticed. */
    method RemoveFile()
      modifies this`file
      ensures file == None || file == old(file)
    {
      var ok: bool := *;
      if ok {
        file := None;
      }
    }

    method ReadFile() returns (seen: Option<string>)
      modifies this`faults
      ensures faults >= old(faults) && (faults == old(faults) ==> seen == file)
      ensures seen.Some? ==> file.Some? && seen.value <= file.value
    {
      seen := file;
      var opens: bool := *;
      if file.Some? && !opens {
        faults := faults + 1;
        return None;
      }
      if file.Some? {
        var shown :| 0 <= shown <= |file.value|;
        if shown < |file.value| {
          faults := faults + 1;
          seen := Some(file.value[..shown]);
        }
      }
    }

    /** Decided by what the read shows; a file that is misread may be removed. */
    method IsLockedOut(now: nat) returns (locked: bool, ghost seen: Option<string>)
      modifies this
      ensures faults >= old(faults) && (faults == old(faults) ==> seen == old(file))
      ensures locked == Locks(seen, now)
      ensures if locked then file == old(file) else file == None || file == old(file)
    {
      hide Strtoul;
      var raw := ReadFile();
      seen := raw;
      if raw.None? {
        return false, seen;
      }
      var parsed := Strtoul(raw.value);
      if parsed.None? {
        RemoveFile();
        return false, seen;
      }
      var unlockAt := parsed.value;
      if now >= unlockAt {
        RemoveFile();
        return false, seen;
      }
      return true, seen;
    }

    method WriteLockoutUntil(unlockAt: nat) returns (ok: bool)
      modifies this
      ensures faults >= old(faults) && (!ok ==> faults > old(faults))
      ensures faults == old(faults) ==> file == Some(Decimal(unlockAt))
      ensures file == old(file) || (file.Some? && file.value <= Decimal(unlockAt))
    {
      hide Decimal;
      var text := Decimal(unlockAt);
      ok := *;
      var started: bool := *;
      if ok || started {
        var kept :| 0 <= kept <= |text|;
        file := Some(text[..kept]);
        assert text[..|text|] == text;
        if ok && kept < |text| {
          faults := faults + 1;
        }
      }
      if !ok {
        faults := faults + 1;
      }
    }

    method FetchSecurityQuestions(now: nat, questions: Option<seq<StoredQuestion>>)
      returns (v: Verdict, ghost seen: Option<string>)
      modifies this
      ensures faults >= old(faults) && (faults == old(faults) ==> seen == old(file))
      ensures v == if Locks(seen, now) then Locked else if questions.None? then NotConfigured else Shown
      ensures if v == Locked then file == old(file) else file == None || file == old(file)
    {
      var locked;
      locked, seen := IsLockedOut(now);
      v := if locked then Locked else if questions.None? then NotConfigured else Shown;
    }

    method ValidateSecurityAnswers(now: nat, answers: seq<string>, questions: Option<seq<StoredQuestion>>, derive: Derive)
      returns (v: Verdict, ghost seen: Option<string>)
      modifies this
      ensures faults >= old(faults) && (faults == old(faults) ==> seen == old(file))
      ensures v == if Locks(seen, now) then Locked else Check(answers, questions, derive)
      ensures v == Wrong && faults == old(faults) ==> file == Some(Decimal(Until(now)))
      ensures v == Locked ==> file == old(file)
      ensures v != Wrong ==> file == None || file == old(file)
    {
      hide Locks, Decimal;
      var locked;
      locked, seen := IsLockedOut(now);
      if locked {
        return Locked, seen;
      }
      if questions.None? {
        return NotConfigured, seen;
      }
      var stored := questions.value;
      if |answers| != |stored| {
        return Incomplete, seen;
      }
      for i := 0 to |stored|
        invariant file == None || file == old(file)
        invariant faults >= old(faults) && (faults == old(faults) ==> seen == old(file))
        invariant Check(answers, questions, derive) == Compare(answers, stored, derive, i)
      {
        var attempt := derive(answers[i], stored[i].salt);
        if attempt.None? {
          return CryptoFailed, seen;
        }
        if attempt.value != stored[i].answerHash {
          var ok := WriteLockoutUntil(Until(now));
          return Wrong, seen;
        }
      }
      RemoveFile();
      return Right, seen;
    }
  }

  /** A lockout that is in force is not seen by a read that finds no file: right answers then
      reset the secret, although it is locked. */
  lemma MisreadUnlocks(now: nat, answers: seq<string>, stored: seq<StoredQuestion>, derive: Derive)
    requires now + COOLDOWN <= ULONG_MAX && |answers| == |stored|
    requires forall k :: 0 <= k < |stored| ==> Matches(answers, stored, derive, k)
    ensures Locks(Some(Decimal(Until(now))), now) && !Locks(None, now) && Check(answers, Some(stored), derive) == Right
  {
    hide Locks, Decimal;
    WrittenLocksIff(Until(now), now);
    CompareIs(answers, stored, derive, 0);
    NoFileNoLock(now);
  }

  lemma NoFileNoLock(now: nat)
    ensures !Locks(None, now)
  {
  }

  /** Resetting a forgotten secret: a new session is issued only if every answer matched and
      the new secret is not empty, and, unless the lockout file was misread, nothing was
      locked. */
  method ResetForgottenSecret(gate: Lockout, session: Session.SessionFile, mac: Session.Mac, now: nat, newSecret: string,
                              answers: seq<string>, questions: Option<seq<StoredQuestion>>, derive: Derive, token: string)
    returns (ok: bool)
    requires Session.GoodMac(mac) && session.Valid(mac) && session.apmd.Idle? && Session.PlainText(token)
    modifies gate, session
    ensures session.Valid(mac)
    ensures ok || session.log != old(session.log) ==>
              && newSecret != "" && Check(answers, questions, derive) == Right
              && (gate.faults == old(gate.faults) ==> !Locks(old(gate.file), now))
    ensures session.log == old(session.log) || session.log == old(session.log) + [Session.Issued(token, now)]
    ensures ok ==> session.log == old(session.log) + [Session.Issued(token, now)]
  {
    hide Locks, Check, Session.GoodMac, Session.PlainText;
    var v, _ := gate.ValidateSecurityAnswers(now, answers, questions, derive);
    if v != Right {
      return false;
    }
    if newSecret == "" {
      return false;
    }
    var persisted: bool := *;
    if !persisted {
      return false;
    }
    ok := session.IssueSession(token, now, mac);
  }

  // ----- whole runs -----

  datatype Request = Fetch(now: nat) | Answer(now: nat, answers: seq<string>)

  ghost predicate ClockRises(rs: seq<Request>) {
    forall i, j :: 0 <= i <= j < |rs| ==> rs[i].now <= rs[j].now
  }

  /** Every wrong answer locks out all later requests before its cooldown ends. */
  ghost predicate WrongLocks(rs: seq<Request>, vs: seq<Verdict>)
    requires |vs| <= |rs|
  {
    forall i, j :: 0 <= i < j < |vs| && vs[i] == Wrong && rs[j].now < Until(rs[i].now) ==> vs[j] == Locked
  }

  /** After the first requests, each wrong answer either still locks or its time is over. */
  ghost predicate StillLocks(rs: seq<Request>, vs: seq<Verdict>, file: Option<string>)
    requires |vs| <= |rs|
  {
    forall i :: 0 <= i < |vs| && vs[i] == Wrong ==>
                  rs[|vs| - 1].now >= Until(rs[i].now) || file == Some(Decimal(Until(rs[i].now)))
  }

  lemma RequestKeeps(rs: seq<Request>, vs: seq<Verdict>, v: Verdict, before: Option<string>, after: Option<string>)
    requires |vs| < |rs| && ClockRises(rs) && WrongLocks(rs, vs) && StillLocks(rs, vs, before)
    requires (v == Locked) == Locks(before, rs[|vs|].now)
    requires v == Locked ==> after == before
    requires v == Wrong ==> after == Some(Decimal(Until(rs[|vs|].now)))
    ensures WrongLocks(rs, vs + [v]) && StillLocks(rs, vs + [v], after)
  {
    hide Locks, Decimal, Until;
    var n := |vs|;
    forall i | 0 <= i < n && vs[i] == Wrong && rs[n].now < Until(rs[i].now)
      ensures v == Locked && after == Some(Decimal(Until(rs[i].now)))
    {
      assert rs[n - 1].now <= rs[n].now;
      WrittenLocksIff(Until(rs[i].now), rs[n].now);
    }
  }

  /** Any run of requests with a clock that never goes back: as long as the lockout is written
      and read in full, a wrong answer at time t blocks every later request before t + 300 (or
      before the wrapped value at the end of 64-bit time). */
  method Play(rs: seq<Request>, questions: Option<seq<StoredQuestion>>, derive: Derive) returns (vs: seq<Verdict>, faults: nat)
    requires ClockRises(rs)
    ensures |vs| == |rs|
    ensures faults == 0 ==> WrongLocks(rs, vs)
  {
    hide Locks, Decimal, Check, ClockRises, WrongLocks, StillLocks, Until;
    var gate := new Lockout();
    vs := [];
    NothingAsked(rs, gate.file);
    for i := 0 to |rs|
      invariant |vs| == i && (gate.faults == 0 ==> WrongLocks(rs, vs) && StillLocks(rs, vs, gate.file))
    {
      var v;
      ghost var seen, before := None, gate.file;
      match rs[i] {
        case Fetch(now) => v, seen := gate.FetchSecurityQuestions(now, questions);
        case Answer(now, answers) => v, seen := gate.ValidateSecurityAnswers(now, answers, questions, derive);
      }
      if gate.faults == 0 {
        CheckNeverLocks(rs[i], questions, derive);
        RequestKeeps(rs, vs, v, before, gate.file);
      }
      vs := vs + [v];
    }
    faults := gate.faults;
  }

  lemma NothingAsked(rs: seq<Request>, file: Option<string>)
    ensures WrongLocks(rs, []) && StillLocks(rs, [], file)
  {
  }

  lemma CheckNeverLocks(r: Request, questions: Option<seq<StoredQuestion>>, derive: Derive)
    ensures r.Answer? ==> Check(r.answers, questions, derive) != Locked
  {
    if r.Answer? && questions.Some? && |r.answers| == |questions.value| {
      CompareIs(r.answers, questions.value, derive, 0);
    }
  }
}
