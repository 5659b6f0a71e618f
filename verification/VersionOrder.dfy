/** compareVersionSimple: versions compared run by run, digit runs against text runs. */
module VersionOrder {
  import opened Text

  /** Sign of an integer comparison. */
  function Sign(a: int, b: int): int { if a < b then -1 else if a > b then 1 else 0 }

  /** std::string::compare, as a sign. */
  function LexCompare(a: string, b: string): (r: int)
    ensures -1 <= r <= 1 && (r == 0 <==> a == b)
  {
    if a == "" || b == "" then Sign(|a|, |b|)
    else if a[0] != b[0] then (if a[0] < b[0] then -1 else 1)
    else
      assert a == [a[0]] + a[1..] && b == [b[0]] + b[1..];
      LexCompare(a[1..], b[1..])
  }

  // ----- maximal runs -----

  datatype Run = Run(digits: bool, text: string)

  /** Where the run of characters of the given kind starting at i ends. */
  function RunEnd(s: string, i: nat, digits: bool): (e: nat)
    requires i <= |s|
    ensures i <= e <= |s|
    ensures forall k :: i <= k < e ==> IsDigit(s[k]) == digits
    ensures e < |s| ==> IsDigit(s[e]) != digits
    decreases |s| - i
  {
    if i < |s| && IsDigit(s[i]) == digits then RunEnd(s, i + 1, digits) else i
  }

  function Runs(s: string, i: nat): (r: seq<Run>)
    requires i <= |s|
    ensures forall x :: x in r ==> WellFormed(x)
    decreases |s| - i
  {
    if i == |s| then []
    else
      var e := RunEnd(s, i, IsDigit(s[i]));
      [Run(IsDigit(s[i]), s[i..e])] + Runs(s, e)
  }

  predicate WellFormed(r: Run) {
    r.text != "" && (r.digits ==> forall c :: c in r.text ==> IsDigit(c))
  }

  /** Meaning of one comparison step: numbers by value, texts by their bytes, any number
      above any text. */
  function CompareRun(a: Run, b: Run): int
    requires WellFormed(a) && WellFormed(b)
  {
    if a.digits && b.digits then Sign(NumberOf(a.text), NumberOf(b.text))
    else if a.digits then 1
    else if b.digits then -1
    else LexCompare(a.text, b.text)
  }

  predicate AllWellFormed(x: seq<Run>) { forall r :: r in x ==> WellFormed(r) }

  /** Lexicographic extension; a proper prefix is smaller. */
  function CompareRuns(x: seq<Run>, y: seq<Run>): int
    requires AllWellFormed(x) && AllWellFormed(y)
  {
    if x == [] || y == [] then Sign(|x|, |y|)
    else
      var c := CompareRun(x[0], y[0]);
      if c != 0 then c else CompareRuns(x[1..], y[1..])
  }

  /** The order the code is meant to realise. */
  function CompareVersions(a: string, b: string): int {
    CompareRuns(Runs(a, 0), Runs(b, 0))
  }

  // ----- stripped length-then-bytes comparison is comparison by value -----

  function Strip(s: string): (r: string)
    ensures r != ""
    ensures (forall c :: c in s ==> IsDigit(c)) ==> forall c :: c in r ==> IsDigit(c)
    ensures r == "0" || r[0] != '0'
  {
    if s == "" then "0" else if s[0] == '0' then Strip(s[1..]) else s
  }

  lemma {:induction false} ValueOfZeroAhead(s: string)
    requires forall c :: c in s ==> IsDigit(c)
    ensures NumberOf("0" + s) == NumberOf(s)
  {
    if s != "" {
      ValueOfZeroAhead(s[..|s| - 1]);
      assert ("0" + s)[..|s|] == "0" + s[..|s| - 1];
    }
  }

  lemma {:induction false} StripKeepsValue(s: string)
    requires forall c :: c in s ==> IsDigit(c)
    ensures NumberOf(Strip(s)) == NumberOf(s)
  {
    if s != "" && s[0] == '0' {
      assert s == "0" + s[1..];
      ValueOfZeroAhead(s[1..]);
      StripKeepsValue(s[1..]);
    }
  }

  lemma {:induction false} LeadingDigitCounts(s: string)
    requires s != "" && s[0] != '0' && forall c :: c in s ==> IsDigit(c)
    ensures NumberOf(s) >= 1
  {
    if |s| > 1 {
      LeadingDigitCounts(s[..|s| - 1]);
    }
  }

  lemma {:induction false} LongerIsGreater(a: string, b: string)
    requires forall c :: c in a || c in b ==> IsDigit(c)
    requires 0 < |a| < |b| && b[0] != '0'
    ensures NumberOf(a) < NumberOf(b)
  {
    var a0, b0 := a[..|a| - 1], b[..|b| - 1];
    if |a| == 1 {
      LeadingDigitCounts(b0);
      assert a0 == "" && IsDigit(a[0]);
    } else {
      LongerIsGreater(a0, b0);
      assert IsDigit(a[|a| - 1]) && IsDigit(b[|b| - 1]);
    }
  }

  lemma {:induction false} LexSnoc(a: string, b: string, x: char, y: char)
    requires |a| == |b|
    ensures LexCompare(a + [x], b + [y]) ==
            if LexCompare(a, b) != 0 then LexCompare(a, b) else Sign(x as int, y as int)
  {
    if a == "" {
      assert (a + [x])[1..] == "" && (b + [y])[1..] == "";
    } else {
      assert (a + [x])[1..] == a[1..] + [x] && (b + [y])[1..] == b[1..] + [y];
      LexSnoc(a[1..], b[1..], x, y);
    }
  }

  lemma {:induction false} SameLengthByValue(a: string, b: string)
    requires |a| == |b| && forall c :: c in a || c in b ==> IsDigit(c)
    ensures LexCompare(a, b) == Sign(NumberOf(a), NumberOf(b))
  {
    if a != "" {
      var a0, b0 := a[..|a| - 1], b[..|b| - 1];
      assert a == a0 + [a[|a| - 1]] && b == b0 + [b[|b| - 1]];
      SameLengthByValue(a0, b0);
      LexSnoc(a0, b0, a[|a| - 1], b[|b| - 1]);
      assert IsDigit(a[|a| - 1]) && IsDigit(b[|b| - 1]);
    } else {
      assert b == "";
    }
  }

  /** The code's test on digit runs: strip zeros, compare lengths, then bytes. */
  function CompareStripped(a: string, b: string): int {
    var an, bn := Strip(a), Strip(b);
    if |an| != |bn| then Sign(|an|, |bn|) else LexCompare(an, bn)
  }

  /** It agrees with the numbers denoted, for runs of any length. */
  lemma StrippedIsByValue(a: string, b: string)
    requires forall c :: c in a || c in b ==> IsDigit(c)
    ensures CompareStripped(a, b) == Sign(NumberOf(a), NumberOf(b))
  {
    var an, bn := Strip(a), Strip(b);
    StripKeepsValue(a);
    StripKeepsValue(b);
    if |an| == |bn| {
      SameLengthByValue(an, bn);
    } else if |an| < |bn| {
      LongerIsGreater(an, bn);
    } else {
      LongerIsGreater(bn, an);
    }
  }

  // ----- the code -----

  method StripZeros(s: string) returns (out: string)
    ensures out == Strip(s)
  {
    var pos := 0;
    while pos < |s| && s[pos] == '0'
      invariant pos <= |s| && Strip(s) == Strip(s[pos..])
    {
      pos := pos + 1;
    }
    out := s[pos..];
    if out == "" {
      out := "0";
    }
  }

  /** One chunk extraction: the cursor moves to the end of the run it stands in. */
  method TakeChunk(s: string, start: nat) returns (i: nat, chunk: string)
    requires start < |s|
    ensures start < i <= |s| && i == RunEnd(s, start, IsDigit(s[start])) && chunk == s[start..i]
  {
    var digits := IsDigit(s[start]);
    i := start;
    while i < |s| && IsDigit(s[i]) == digits
      invariant start <= i <= |s| && RunEnd(s, start, digits) == RunEnd(s, i, digits)
      invariant i == start ==> i < |s|
    {
      i := i + 1;
    }
    chunk := s[start..i];
  }

  method CompareVersionSimple(a: string, b: string) returns (r: int)
    ensures r == CompareVersions(a, b)
  {
    var i, j := 0, 0;
    while i < |a| || j < |b|
      invariant i <= |a| && j <= |b|
      invariant CompareRuns(Runs(a, i), Runs(b, j)) == CompareVersions(a, b)
      decreases |a| - i + |b| - j
    {
      if i >= |a| {
        return -1;
      }
      if j >= |b| {
        return 1;
      }
      var aIsDigit, bIsDigit := IsDigit(a[i]), IsDigit(b[j]);
      ghost var x, y := Runs(a, i), Runs(b, j);
      var aChunk, bChunk;
      i, aChunk := TakeChunk(a, i);
      j, bChunk := TakeChunk(b, j);
      assert x == [Run(aIsDigit, aChunk)] + Runs(a, i) && y == [Run(bIsDigit, bChunk)] + Runs(b, j);
      assert WellFormed(x[0]) && WellFormed(y[0]);
      if aIsDigit && bIsDigit {
        StrippedIsByValue(aChunk, bChunk);
        var an := StripZeros(aChunk);
        var bn := StripZeros(bChunk);
        if |an| < |bn| {
          return -1;
        }
        if |an| > |bn| {
          return 1;
        }
        var cmp := LexCompare(an, bn);
        if cmp != 0 {
          return if cmp < 0 then -1 else 1;
        }
      } else if aIsDigit != bIsDigit {
        return if aIsDigit then 1 else -1;
      } else {
        var cmp := LexCompare(aChunk, bChunk);
        if cmp != 0 {
          return if cmp < 0 then -1 else 1;
        }
      }
    }
    return 0;
  }

  // ----- the order is a total preorder -----

  lemma {:induction false} LexAntisymmetric(a: string, b: string)
    ensures LexCompare(a, b) == -LexCompare(b, a)
  {
    if a != "" && b != "" {
      LexAntisymmetric(a[1..], b[1..]);
    }
  }

  lemma {:induction false} LexTransitive(a: string, b: string, c: string)
    requires LexCompare(a, b) <= 0 && LexCompare(b, c) <= 0
    ensures LexCompare(a, c) <= 0
    ensures LexCompare(a, c) == 0 ==> LexCompare(a, b) == 0 && LexCompare(b, c) == 0
  {
    if a != "" && b != "" && c != "" && a[0] == b[0] == c[0] {
      LexTransitive(a[1..], b[1..], c[1..]);
    }
  }

  lemma RunAntisymmetric(a: Run, b: Run)
    requires WellFormed(a) && WellFormed(b)
    ensures CompareRun(a, b) == -CompareRun(b, a)
  {
    LexAntisymmetric(a.text, b.text);
  }

  lemma RunTransitive(a: Run, b: Run, c: Run)
    requires WellFormed(a) && WellFormed(b) && WellFormed(c)
    requires CompareRun(a, b) <= 0 && CompareRun(b, c) <= 0
    ensures CompareRun(a, c) <= 0
    ensures CompareRun(a, c) == 0 ==> CompareRun(a, b) == 0 && CompareRun(b, c) == 0
  {
    if !a.digits && !b.digits && !c.digits {
      LexTransitive(a.text, b.text, c.text);
    }
  }

  lemma {:induction false} RunsAntisymmetric(x: seq<Run>, y: seq<Run>)
    requires AllWellFormed(x) && AllWellFormed(y)
    ensures CompareRuns(x, y) == -CompareRuns(y, x)
  {
    if x != [] && y != [] {
      RunAntisymmetric(x[0], y[0]);
      RunsAntisymmetric(x[1..], y[1..]);
    }
  }

  lemma {:induction false} RunsTransitive(x: seq<Run>, y: seq<Run>, z: seq<Run>)
    requires AllWellFormed(x) && AllWellFormed(y) && AllWellFormed(z)
    requires CompareRuns(x, y) <= 0 && CompareRuns(y, z) <= 0
    ensures CompareRuns(x, z) <= 0
    ensures CompareRuns(x, z) == 0 ==> CompareRuns(x, y) == 0 && CompareRuns(y, z) == 0
  {
    if x != [] && y != [] && z != [] {
      RunTransitive(x[0], y[0], z[0]);
      if CompareRun(x[0], y[0]) == 0 && CompareRun(y[0], z[0]) == 0 {
        RunTransitive(z[0], y[0], x[0]) by {
          RunAntisymmetric(x[0], y[0]);
          RunAntisymmetric(y[0], z[0]);
        }
        RunAntisymmetric(x[0], z[0]);
        RunsTransitive(x[1..], y[1..], z[1..]);
      }
    }
  }

  lemma VersionsAntisymmetric(a: string, b: string)
    ensures CompareVersions(a, b) == -CompareVersions(b, a)
  {
    RunsAntisymmetric(Runs(a, 0), Runs(b, 0));
  }

  lemma VersionsTransitive(a: string, b: string, c: string)
    requires CompareVersions(a, b) <= 0 && CompareVersions(b, c) <= 0
    ensures CompareVersions(a, c) <= 0
    ensures CompareVersions(a, c) == 0 ==> CompareVersions(a, b) == 0 && CompareVersions(b, c) == 0
  {
    RunsTransitive(Runs(a, 0), Runs(b, 0), Runs(c, 0));
  }

  // ----- which versions are equal -----

  /** Same kind and same text, leading zeros of numbers aside. */
  predicate SameRun(a: Run, b: Run) {
    a.digits == b.digits && if a.digits then Strip(a.text) == Strip(b.text) else a.text == b.text
  }

  lemma SameRunIff(a: Run, b: Run)
    requires WellFormed(a) && WellFormed(b)
    ensures CompareRun(a, b) == 0 <==> SameRun(a, b)
  {
    if a.digits && b.digits {
      StrippedIsByValue(a.text, b.text);
    }
  }

  lemma {:induction false} EqualRunsIff(x: seq<Run>, y: seq<Run>)
    requires AllWellFormed(x) && AllWellFormed(y)
    ensures CompareRuns(x, y) == 0 <==>
            |x| == |y| && forall k :: 0 <= k < |x| ==> SameRun(x[k], y[k])
  {
    if x != [] && y != [] {
      SameRunIff(x[0], y[0]);
      EqualRunsIff(x[1..], y[1..]);
      if |x| == |y| && SameRun(x[0], y[0]) && forall k :: 0 <= k < |x[1..]| ==> SameRun(x[1..][k], y[1..][k]) {
        forall k | 0 <= k < |x|
          ensures SameRun(x[k], y[k])
        {
          if k > 0 {
            assert SameRun(x[1..][k - 1], y[1..][k - 1]);
          }
        }
      } else if |x| == |y| && forall k :: 0 <= k < |x| ==> SameRun(x[k], y[k]) {
        forall k | 0 <= k < |x[1..]|
          ensures SameRun(x[1..][k], y[1..][k])
        {
          assert SameRun(x[k + 1], y[k + 1]);
        }
      }
    }
  }

  /** Two versions compare equal exactly when their runs agree up to leading zeros. */
  lemma EqualVersionsIff(a: string, b: string)
    ensures var x, y := Runs(a, 0), Runs(b, 0);
            CompareVersions(a, b) == 0 <==>
            |x| == |y| && forall k :: 0 <= k < |x| ==> SameRun(x[k], y[k])
  {
    EqualRunsIff(Runs(a, 0), Runs(b, 0));
  }

  // ----- which version is the smaller one -----

  /** a comes before b byte by byte: at their first difference a ends or has the lower byte. */
  ghost predicate Earlier(a: string, b: string) {
    exists k :: 0 <= k <= |a| && k < |b| && a[..k] == b[..k] && (k == |a| || a[k] < b[k])
  }

  lemma {:induction false} LexAt(a: string, b: string, k: nat)
    requires k <= |a| && k < |b| && a[..k] == b[..k] && (k == |a| || a[k] < b[k])
    ensures LexCompare(a, b) == -1
  {
    if k > 0 {
      assert a[0] == a[..k][0] == b[..k][0] == b[0];
      assert a[1..][..k - 1] == a[..k][1..] && b[1..][..k - 1] == b[..k][1..];
      LexAt(a[1..], b[1..], k - 1);
    }
  }

  lemma {:induction false} LexDiffers(a: string, b: string)
    requires LexCompare(a, b) == -1
    ensures Earlier(a, b)
  {
    if a == "" || a[0] != b[0] {
      assert a[..0] == b[..0];
    } else {
      LexDiffers(a[1..], b[1..]);
      var a', b' := a[1..], b[1..];
      var k :| 0 <= k <= |a'| && k < |b'| && a'[..k] == b'[..k] && (k == |a'| || a'[k] < b'[k]);
      assert a[..k + 1] == [a[0]] + a'[..k] && b[..k + 1] == [b[0]] + b'[..k];
    }
  }

  /** The byte order of std::string. */
  lemma EarlierIff(a: string, b: string)
    ensures LexCompare(a, b) < 0 <==> Earlier(a, b)
  {
    if Earlier(a, b) {
      var k :| 0 <= k <= |a| && k < |b| && a[..k] == b[..k] && (k == |a| || a[k] < b[k]);
      LexAt(a, b, k);
    }
    if LexCompare(a, b) < 0 {
      LexDiffers(a, b);
    }
  }

  /** Between a and c no run of digits or of other characters goes on. */
  ghost predicate Boundary(a: string, c: string) {
    a == "" || c == "" || ('0' <= a[|a| - 1] <= '9') != ('0' <= c[0] <= '9')
  }

  lemma {:induction false} RunEndShift(s: string, i: nat, k: nat, digits: bool)
    requires i + k <= |s|
    ensures RunEnd(s, i + k, digits) == i + RunEnd(s[i..], k, digits)
    decreases |s| - k
  {
    if i + k < |s| && IsDigit(s[i + k]) == digits {
      RunEndShift(s, i, k + 1, digits);
    }
  }

  lemma RunsStep(s: string, i: nat)
    requires i <= |s|
    ensures i == |s| ==> Runs(s, i) == []
    ensures i < |s| ==>
              var e := RunEnd(s, i, IsDigit(s[i]));
              i < e && Runs(s, i) == [Run(IsDigit(s[i]), s[i..e])] + Runs(s, e)
  {
  }

  lemma {:induction false} RunsShift(s: string, i: nat, k: nat)
    requires i + k <= |s|
    ensures Runs(s, i + k) == Runs(s[i..], k)
    decreases |s| - k
  {
    hide Runs, RunEnd;
    RunsStep(s, i + k);
    RunsStep(s[i..], k);
    if i + k < |s| {
      var digits := IsDigit(s[i + k]);
      RunEndShift(s, i, k, digits);
      var e := RunEnd(s[i..], k, digits);
      RunsShift(s, i, e);
      assert s[i + k..i + e] == s[i..][k..e];
    }
  }

  lemma {:induction false} RunEndStops(p: string, u: string, i: nat, digits: bool)
    requires i < |p| && Boundary(p, u) && IsDigit(p[i]) == digits
    ensures RunEnd(p + u, i, digits) == RunEnd(p, i, digits)
    decreases |p| - i
  {
    if i + 1 < |p| && IsDigit(p[i + 1]) == digits {
      RunEndStops(p, u, i + 1, digits);
    } else {
      assert i + 1 < |p + u| ==> IsDigit((p + u)[i + 1]) != digits;
      assert RunEnd(p + u, i + 1, digits) == i + 1 == RunEnd(p, i + 1, digits);
    }
  }

  lemma {:induction false} RunsPrefix(p: string, u: string, i: nat)
    requires i <= |p| && Boundary(p, u)
    ensures Runs(p + u, i) == Runs(p, i) + Runs(u, 0)
    decreases |p| - i
  {
    hide Runs, RunEnd;
    RunsStep(p, i);
    if i == |p| {
      RunsShift(p + u, |p|, 0);
      assert (p + u)[|p|..] == u && |p| + 0 == |p|;
    } else {
      RunsStep(p + u, i);
      var digits := IsDigit(p[i]);
      RunEndStops(p, u, i, digits);
      var e := RunEnd(p, i, digits);
      RunsPrefix(p, u, e);
      assert (p + u)[i..e] == p[i..e];
      ConcatAssoc([Run(digits, p[i..e])], Runs(p, e), Runs(u, 0));
    }
  }

  lemma {:induction false} SameHead(x: seq<Run>, y: seq<Run>, z: seq<Run>)
    requires AllWellFormed(x) && AllWellFormed(y) && AllWellFormed(z)
    ensures CompareRuns(x + y, x + z) == CompareRuns(y, z)
  {
    if x == [] {
      assert x + y == y && x + z == z;
    } else {
      assert (x + y)[1..] == x[1..] + y && (x + z)[1..] == x[1..] + z;
      SameRunIff(x[0], x[0]);
      SameHead(x[1..], y, z);
    }
  }

  /** A common beginning that ends with a run does not matter. */
  lemma PrefixCancels(p: string, u: string, v: string)
    requires Boundary(p, u) && Boundary(p, v)
    ensures CompareVersions(p + u, p + v) == CompareVersions(u, v)
  {
    hide Runs, CompareRuns;
    RunsPrefix(p, u, 0);
    RunsPrefix(p, v, 0);
    SameHead(Runs(p, 0), Runs(u, 0), Runs(v, 0));
  }

  /** A version that goes on after a complete run is the later one. */
  lemma LongerIsLater(a: string, c: string)
    requires c != "" && Boundary(a, c)
    ensures CompareVersions(a, a + c) == -1
  {
    PrefixCancels(a, "", c);
    assert a + "" == a;
  }

  /** u is a run that ends where s begins. */
  ghost predicate RunBefore(u: string, s: string, digits: bool) {
    && u != "" && (forall k :: 0 <= k < |u| ==> ('0' <= u[k] <= '9') == digits)
    && Boundary(u, s)
  }

  lemma {:induction false} RunToEnd(u: string, i: nat, digits: bool)
    requires i <= |u| && forall k :: 0 <= k < |u| ==> IsDigit(u[k]) == digits
    ensures RunEnd(u, i, digits) == |u|
    decreases |u| - i
  {
    if i < |u| {
      RunToEnd(u, i + 1, digits);
    }
  }

  lemma FirstRun(u: string, s: string, digits: bool)
    requires RunBefore(u, s, digits)
    ensures Runs(u + s, 0) == [Run(digits, u)] + Runs(s, 0) && WellFormed(Run(digits, u))
  {
    hide Runs, RunEnd;
    RunsPrefix(u, s, 0);
    RunToEnd(u, 0, digits);
    RunsStep(u, 0);
    RunsStep(u, |u|);
    assert u[0..|u|] == u;
  }

  /** After a common beginning the next two runs decide, unless they are equal: the smaller
      number first, the text that is earlier byte by byte first, and text before a number. */
  lemma NextRunDecides(p: string, u: string, s: string, v: string, t: string, ud: bool, vd: bool)
    requires RunBefore(u, s, ud) && RunBefore(v, t, vd) && Boundary(p, u) && Boundary(p, v)
    ensures ud && vd && NumberOf(u) < NumberOf(v) ==> CompareVersions(p + (u + s), p + (v + t)) == -1
    ensures !ud && !vd && Earlier(u, v) ==> CompareVersions(p + (u + s), p + (v + t)) == -1
    ensures !ud && vd ==> CompareVersions(p + (u + s), p + (v + t)) == -1
  {
    hide Runs;
    PrefixCancels(p, u + s, v + t);
    FirstRun(u, s, ud);
    FirstRun(v, t, vd);
    EarlierIff(u, v);
  }

  /** Numbers without their leading zeros: the shorter one is the smaller, and of two of equal
      length the one that is earlier byte by byte. */
  lemma SmallerNumber(zeros: string, u: string, more: string, v: string)
    requires AllDigits(zeros + u) && AllDigits(more + v) && v != "" && v[0] != '0'
    requires forall k :: 0 <= k < |zeros| ==> zeros[k] == '0'
    requires forall k :: 0 <= k < |more| ==> more[k] == '0'
    requires |u| < |v| || (|u| == |v| && Earlier(u, v))
    ensures NumberOf(zeros + u) < NumberOf(more + v)
  {
    ZerosAhead(zeros, u);
    ZerosAhead(more, v);
    if |u| == |v| {
      SameLengthByValue(u, v);
      EarlierIff(u, v);
    } else if u != "" {
      LongerIsGreater(u, v);
    } else {
      LeadingDigitCounts(v);
    }
  }

  lemma {:induction false} ZerosAhead(zeros: string, s: string)
    requires AllDigits(zeros + s) && forall k :: 0 <= k < |zeros| ==> zeros[k] == '0'
    ensures AllDigits(s) && NumberOf(zeros + s) == NumberOf(s)
  {
    if zeros == "" {
      assert zeros + s == s;
    } else {
      var rest := zeros[1..] + s;
      assert zeros + s == "0" + rest;
      assert forall c :: c in rest ==> c in zeros + s;
      ValueOfZeroAhead(rest);
      ZerosAhead(zeros[1..], s);
    }
  }

  /** An upgrade from 1.9 to 1.10, and from 1.0 to 1.0.1. */
  lemma UpgradeExamples()
    ensures CompareVersions("1.9", "1.10") == -1 && CompareVersions("1.0", "1.0.1") == -1
  {
    hide CompareVersions, NumberOf;
    LongerIsLater("1.0", ".1");
    SmallerNumber("", "9", "", "10");
    Pieces();
    NextRunDecides("1.", "9", "", "10", "", true, true);
  }

  lemma Pieces()
    ensures "1.0" + ".1" == "1.0.1" && "1." + ("9" + "") == "1.9" && "1." + ("10" + "") == "1.10"
    ensures "" + "9" == "9" && "" + "10" == "10"
  {
  }
}
