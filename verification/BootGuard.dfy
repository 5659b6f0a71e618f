/** The boot counter and safe mode of amsd, over all boot histories. */
module BootGuard {
  import opened Wrappers
  import opened Text

  const DEFAULT_THRESHOLD := 3

  // ----- reading and writing numbers -----

  /** What a counter or threshold file stands for; unreadable text counts as the default. */
  function NumberIn(file: Option<string>, default: nat): (n: nat)
    ensures default <= ULONG_MAX ==> n <= ULONG_MAX
  {
    match file
    case None => default
    case Some(text) =>
      match Strtoul(text)
      case None => default
      case Some(v) => v
  }

  function Threshold(file: Option<string>): (t: nat)
    ensures 0 < t <= ULONG_MAX
  {
    var v := NumberIn(file, DEFAULT_THRESHOLD);
    if v == 0 then DEFAULT_THRESHOLD else v
  }

  lemma NumberIsRead(n: nat, default: nat)
    requires n <= ULONG_MAX
    ensures NumberIn(Some(Decimal(n)), default) == n
  {
    hide Strtoul, Decimal, NumberOf;
    NumberOfDecimal(n);
    DigitsAreRead(Decimal(n));
  }

  /** Without a readable positive threshold three failed boots are enough. */
  lemma ThresholdIs(n: nat)
    requires 0 < n < 0x1_0000_0000_0000_0000
    ensures Threshold(None) == 3 && Threshold(Some(Decimal(0))) == 3 && Threshold(Some(Decimal(n))) == n
  {
    hide Decimal, NumberIn;
    NumberIsRead(n, 3);
    NumberIsRead(0, 3);
    NothingThere(3);
  }

  lemma NothingThere(default: nat)
    ensures NumberIn(None, default) == default
  {
  }

  // ----- the history -----

  /** What happens on one boot: would applying the overlays succeed, and does the system
      report that it finished booting. */
  datatype Boot = Boot(overlaysOk: bool, succeeded: bool)

  datatype Guard = Guard(counter: nat, flag: bool) {
    predicate SafeMode(threshold: nat) { counter >= threshold || flag }

    function Next(threshold: nat, b: Boot): Guard {
      var safe := SafeMode(threshold);
      var counted := Guard(if counter == ULONG_MAX then 1 else counter + 1, flag || safe);
      if !b.succeeded then counted
      else Guard(0, counted.flag && !safe && !b.overlaysOk)
    }
  }

  function After(history: seq<Boot>, threshold: nat): Guard {
    if history == [] then Guard(0, false)
    else After(history[..|history| - 1], threshold).Next(threshold, history[|history| - 1])
  }

  /** How many boots in a row, up to now, did not succeed. */
  function Failures(history: seq<Boot>): nat {
    if history == [] || history[|history| - 1].succeeded then 0 else 1 + Failures(history[..|history| - 1])
  }

  /** The counter after n unsuccessful boots: it wraps from the largest value to one. */
  function Wrapped(n: nat): nat { if n == 0 then 0 else (n - 1) % ULONG_MAX + 1 }

  lemma WrappedNext(n: nat)
    ensures Wrapped(n + 1) == if Wrapped(n) == ULONG_MAX then 1 else Wrapped(n) + 1
    ensures n <= ULONG_MAX ==> Wrapped(n) == n
  {
    if n > 0 {
      var q, r := (n - 1) / ULONG_MAX, (n - 1) % ULONG_MAX;
      if r == ULONG_MAX - 1 {
        assert n == (q + 1) * ULONG_MAX + 0;
      } else {
        assert n == q * ULONG_MAX + (r + 1);
      }
    }
  }

  /** The whole state after any history is a function of the trailing failures. */
  lemma {:induction false} GuardIs(history: seq<Boot>, threshold: nat)
    requires 0 < threshold <= ULONG_MAX
    ensures After(history, threshold) == Guard(Wrapped(Failures(history)), Failures(history) > threshold)
  {
    hide Wrapped;
    WrappedNext(0);
    if history != [] {
      var before := history[..|history| - 1];
      GuardIs(before, threshold);
      WrappedNext(Failures(before));
    }
  }

  /** Modules are loaded on a boot exactly when fewer than `threshold` boots in a row
      immediately before it failed, however long the history and across counter wrap. */
  lemma LoadsIff(history: seq<Boot>, threshold: nat)
    requires 0 < threshold <= ULONG_MAX
    ensures !After(history, threshold).SafeMode(threshold) <==> Failures(history) < threshold
  {
    hide After, Wrapped;
    GuardIs(history, threshold);
    WrappedNext(Failures(history));
  }

  lemma {:induction false} FailuresGrow(history: seq<Boot>, more: seq<Boot>)
    requires forall b :: b in more ==> !b.succeeded
    ensures Failures(history + more) == Failures(history) + |more|
  {
    if more == [] {
      assert history + more == history;
    } else {
      var init := more[..|more| - 1];
      assert more[|more| - 1] in more && forall b :: b in init ==> b in more;
      FailuresGrow(history, init);
      assert (history + more)[..|history + more| - 1] == history + init;
    }
  }

  /** Safe mode persists until a boot succeeds; the boot after that success loads modules
      again. */
  lemma SafeModeEndsWithSuccess(history: seq<Boot>, more: seq<Boot>, success: Boot, threshold: nat)
    requires 0 < threshold <= ULONG_MAX && After(history, threshold).SafeMode(threshold)
    requires (forall b :: b in more ==> !b.succeeded) && success.succeeded
    ensures After(history + more, threshold).SafeMode(threshold)
    ensures !After(history + more + [success], threshold).SafeMode(threshold)
  {
    hide After;
    LoadsIff(history, threshold);
    LoadsIff(history + more, threshold);
    LoadsIff(history + more + [success], threshold);
    FailuresGrow(history, more);
  }

  // ----- the daemon -----

  /** The files of the guard. Every write may fail or lose its end unseen, every read may show
      no file or only the start of one; `faults` counts them all. */
  class GuardFiles {
    var counter: Option<string>
    var flag: bool
    var faults: nat

    constructor ()
      ensures counter == None && !flag && faults == 0
    {
      counter, flag, faults := None, false, 0;
    }

    function State(): Guard
      reads this
    {
      Guard(NumberIn(counter, 0), flag)
    }

    /** readFile: None where the file cannot be opened. */
    method ReadFile(file: Option<string>) returns (seen: Option<string>)
      modifies this`faults
      ensures faults >= old(faults) && (faults == old(faults) ==> seen == file)
    {
      seen := file;
      var opens: bool := *;
      if file.Some? && !opens {
        faults := faults + 1;
        return None;
      }
      if file.Some? {
        var shown :| 0 <= shown <= |file.value|;
        if shown < |file.value| {
          faults := faults + 1;
          seen := Some(file.value[..shown]);
        }
      }
    }

    method WriteCounter(text: string) returns (ok: bool)
      modifies this`counter, this`faults
      ensures faults >= old(faults) && (!ok ==> faults > old(faults))
      ensures faults == old(faults) ==> counter == Some(text)
    {
      ok := *;
      var started: bool := *;
      if ok || started {
        var kept :| 0 <= kept <= |text|;
        counter := Some(text[..kept]);
        assert text[..|text|] == text;
        if ok && kept < |text| {
          faults := faults + 1;
        }
      }
      if !ok {
        faults := faults + 1;
      }
    }

    /** isFile: a failing stat reads as no flag. */
    method IsSafeModeActive() returns (active: bool)
      modifies this`faults
      ensures faults >= old(faults) && (faults == old(faults) ==> active == flag)
    {
      active := *;
      if active != flag {
        faults := faults + 1;
      }
    }

    method WriteFlag(on: bool) returns (ok: bool)
      modifies this`flag, this`faults
      ensures faults == old(faults) + if ok then 0 else 1
      ensures flag == if ok then on else old(flag)
    {
      ok := *;
      if ok {
        flag := on;
      } else {
        faults := faults + 1;
      }
    }

    method IncrementBootCounter() returns (ok: bool)
      modifies this`counter, this`faults
      ensures faults >= old(faults)
      ensures var c := old(NumberIn(counter, 0));
              faults == old(faults) ==> NumberIn(counter, 0) == if c == ULONG_MAX then 1 else c + 1
    {
      var raw := ReadFile(counter);
      var current := NumberIn(raw, 0);
      if current == ULONG_MAX {
        current := 0;
      }
      current := current + 1;
      NumberIsRead(current, 0);
      ok := WriteCounter(Decimal(current));
    }

    method MarkBootSuccess(safeMode: bool, overlaysOk: bool)
      modifies this
      ensures faults >= old(faults)
      ensures faults == old(faults) ==> State() == Guard(0, old(flag) && !safeMode && !overlaysOk)
    {
      NumberIsRead(0, 0);
      assert Decimal(0) == "0";
      var ok := WriteCounter("0");
      if safeMode {
        ok := WriteFlag(false);
      } else if overlaysOk {
        ok := WriteFlag(false);
      }
    }

    /** One boot of the daemon. */
    method Start(thresholdFile: Option<string>, b: Boot) returns (loaded: bool)
      modifies this
      ensures faults >= old(faults)
      ensures faults == old(faults) ==> loaded == !old(State()).SafeMode(Threshold(thresholdFile))
      ensures faults == old(faults) ==> State() == old(State()).Next(Threshold(thresholdFile), b)
    {
      hide NumberIn;
      var thresholdRaw := ReadFile(thresholdFile);
      var threshold := Threshold(thresholdRaw);
      var counterRaw := ReadFile(counter);
      var bootCount := NumberIn(counterRaw, 0);
      var flagged := IsSafeModeActive();
      var safeMode := bootCount >= threshold || flagged;
      var ok := IncrementBootCounter();
      if safeMode {
        ok := WriteFlag(true);
      }
      var overlaysOk := false;
      loaded := !safeMode;
      if !safeMode {
        overlaysOk := b.overlaysOk;
      }
      if b.succeeded {
        MarkBootSuccess(safeMode, overlaysOk);
      }
    }
  }

  /** A whole history played by the daemon: as long as its reads and writes succeed, each
      boot loads modules exactly when too few boots failed right before it. */
  method Play(history: seq<Boot>, thresholdFile: Option<string>) returns (loaded: seq<bool>, faults: nat)
    ensures |loaded| == |history|
    ensures faults == 0 ==> forall k :: 0 <= k < |history| ==> (loaded[k] <==> Failures(history[..k]) < Threshold(thresholdFile))
  {
    hide After, Failures, NumberIn, Guard.SafeMode, Guard.Next;
    var files := new GuardFiles();
    loaded := [];
    ghost var threshold := Threshold(thresholdFile);
    NothingPlayed(history, threshold);
    for i := 0 to |history|
      invariant |loaded| == i
      invariant files.faults == 0 ==> files.State() == After(history[..i], threshold)
      invariant files.faults == 0 ==> forall k :: 0 <= k < i ==> (loaded[k] <==> Failures(history[..k]) < threshold)
    {
      AfterNext(history, i, threshold);
      LoadsIff(history[..i], threshold);
      var now := files.Start(thresholdFile, history[i]);
      loaded := loaded + [now];
    }
    faults := files.faults;
  }

  lemma NothingPlayed(history: seq<Boot>, threshold: nat)
    ensures After(history[..0], threshold) == Guard(0, false) == Guard(NumberIn(None, 0), false)
  {
  }

  lemma AfterNext(history: seq<Boot>, i: nat, threshold: nat)
    requires i < |history|
    ensures After(history[..i + 1], threshold) == After(history[..i], threshold).Next(threshold, history[i])
  {
    assert history[..i + 1][..i] == history[..i];
  }
}
