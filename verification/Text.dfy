/** String helpers shared by the parsers. A char stands for one byte. */
module Text {
  import opened Wrappers

  lemma ConcatAssoc<T>(a: seq<T>, b: seq<T>, c: seq<T>)
    ensures a + (b + c) == (a + b) + c
  {
  }

  /** std::isspace in the C locale. */
  predicate IsSpace(c: char) {
    c == ' ' || '\t' <= c <= '\r'
  }

  function LTrim(s: string): (r: string)
    ensures r == "" || !IsSpace(r[0])
    ensures |r| <= |s| && r == s[|s| - |r|..]
  {
    if s != "" && IsSpace(s[0]) then LTrim(s[1..]) else s
  }

  function RTrim(s: string): (r: string)
    ensures r == "" || !IsSpace(r[|r| - 1])
    ensures r <= s
  {
    if s != "" && IsSpace(s[|s| - 1]) then RTrim(s[..|s| - 1]) else s
  }

  function Trim(s: string): (r: string)
    ensures r == "" || (!IsSpace(r[0]) && !IsSpace(r[|r| - 1]))
  {
    RTrim(LTrim(s))
  }

  lemma TrimChars(s: string)
    ensures forall c :: c in Trim(s) ==> c in s
  {
    var l := LTrim(s);
    assert forall c :: c in l ==> c in s;
    assert forall c :: c in RTrim(l) ==> c in l;
  }

  /** Trimming changes nothing exactly when neither end is a space. */
  lemma TrimIdIff(s: string)
    ensures Trim(s) == s <==> s == "" || (!IsSpace(s[0]) && !IsSpace(s[|s| - 1]))
  {
  }

  lemma TrimLead(v: string)
    ensures Trim(" " + v) == Trim(v)
  {
    hide RTrim;
    var l := " " + v;
    assert l[0] == ' ' && l[1..] == v;
    assert LTrim(l) == LTrim(l[1..]);
  }

  /** Position of the first occurrence of c. */
  function Find(s: string, c: char): (r: Option<nat>)
    ensures r.Some? ==> r.value < |s| && s[r.value] == c && c !in s[..r.value]
    ensures r.None? ==> c !in s
  {
    if s == "" then None
    else if s[0] == c then Some(0)
    else
      match Find(s[1..], c)
      case None => None
      case Some(k) => assert s[..k + 1] == [s[0]] + s[1..][..k]; Some(k + 1)
  }

  lemma {:induction false} FindFirst(a: string, c: char, b: string)
    requires c !in a
    ensures Find(a + [c] + b, c) == Some(|a|)
  {
    var s := a + [c] + b;
    if a != "" {
      assert s[1..] == a[1..] + [c] + b;
      FindFirst(a[1..], c, b);
    }
  }

  // ----- lines -----

  /** What repeated std::getline yields; a final delimiter does not start another piece. */
  function Split(s: string, delim: char): seq<string>
    decreases |s|
  {
    if s == "" then []
    else
      match Find(s, delim)
      case None => [s]
      case Some(k) => [s[..k]] + Split(s[k + 1..], delim)
  }

  lemma SplitOne(a: string, delim: char, rest: string)
    requires delim !in a
    ensures Split(a + [delim] + rest, delim) == [a] + Split(rest, delim)
    ensures a != "" ==> Split(a, delim) == [a]
  {
    var s := a + [delim] + rest;
    FindFirst(a, delim, rest);
    assert s[..|a|] == a && s[|a| + 1..] == rest;
  }

  lemma {:induction false} SplitLacksDelim(s: string, delim: char)
    ensures forall p :: p in Split(s, delim) ==> delim !in p
    decreases |s|
  {
    if s != "" {
      match Find(s, delim)
      case None =>
      case Some(k) => SplitLacksDelim(s[k + 1..], delim);
    }
  }

  function Lines(s: string): seq<string> { Split(s, '\n') }

  /** Every line followed by a newline. */
  function Unlines(ls: seq<string>): string {
    if ls == [] then "" else ls[0] + "\n" + Unlines(ls[1..])
  }

  ghost predicate SingleLines(ls: seq<string>) {
    forall l :: l in ls ==> '\n' !in l
  }

  lemma LinesOfOne(l: string, rest: string)
    requires '\n' !in l
    ensures Lines(l + ['\n'] + rest) == [l] + Lines(rest)
  {
    SplitOne(l, '\n', rest);
  }

  lemma {:induction false} LinesOfUnlines(ls: seq<string>, rest: string)
    requires SingleLines(ls)
    ensures Lines(Unlines(ls) + rest) == ls + Lines(rest)
  {
    hide Lines;
    if ls == [] {
      assert Unlines(ls) + rest == rest;
    } else {
      LinesOfOne(ls[0], Unlines(ls[1..]) + rest);
      LinesOfUnlines(ls[1..], rest);
      assert Unlines(ls) + rest == ls[0] + ['\n'] + (Unlines(ls[1..]) + rest);
    }
  }

  lemma {:induction false} UnlinesConcat(a: seq<string>, b: seq<string>)
    ensures Unlines(a + b) == Unlines(a) + Unlines(b)
  {
    if a == [] {
      assert a + b == b;
    } else {
      assert (a + b)[0] == a[0] && (a + b)[1..] == a[1..] + b;
      UnlinesConcat(a[1..], b);
    }
  }

  /** A line without its trailing carriage return. */
  function DropCr(l: string): string {
    if l != "" && l[|l| - 1] == '\r' then l[..|l| - 1] else l
  }

  function Lower(c: char): char {
    if 'A' <= c <= 'Z' then c + ('a' - 'A') else c
  }

  function ToLower(s: string): string {
    seq(|s|, i requires 0 <= i < |s| => Lower(s[i]))
  }

  // ----- decimal numbers -----

  predicate IsDigit(c: char) { '0' <= c <= '9' }

  function DigitChar(d: nat): char
    requires d < 10
  {
    '0' + d as char
  }

  function DigitValue(c: char): (d: nat)
    requires IsDigit(c)
    ensures d < 10 && DigitChar(d) == c
  {
    (c - '0') as nat
  }

  /** std::to_string of an unsigned number. */
  function Decimal(n: nat): (r: string)
    ensures r != "" && forall c :: c in r ==> IsDigit(c)
  {
    if n < 10 then [DigitChar(n)] else Decimal(n / 10) + [DigitChar(n % 10)]
  }

  /** The number a run of digits denotes. */
  function NumberOf(s: string): nat
    requires forall c :: c in s ==> IsDigit(c)
  {
    if s == "" then 0 else 10 * NumberOf(s[..|s| - 1]) + DigitValue(s[|s| - 1])
  }

  lemma {:induction false} NumberOfDecimal(n: nat)
    ensures NumberOf(Decimal(n)) == n
  {
    if n < 10 {
      assert Decimal(n)[..0] == "";
    } else {
      NumberOfDecimal(n / 10);
      assert Decimal(n)[..|Decimal(n)| - 1] == Decimal(n / 10);
    }
  }

  /** The longest run of digits at the front. */
  function DigitRun(s: string): (r: string)
    ensures r <= s && forall c :: c in r ==> IsDigit(c)
  {
    if s != "" && IsDigit(s[0]) then [s[0]] + DigitRun(s[1..]) else ""
  }

  predicate AllDigits(s: string) { forall c :: c in s ==> IsDigit(c) }

  lemma RunStep(s: string)
    ensures DigitRun(s) == if s != "" && IsDigit(s[0]) then [s[0]] + DigitRun(s[1..]) else ""
  {
  }

  lemma DigitsTail(digits: string, rest: string)
    requires AllDigits(digits) && digits != ""
    ensures IsDigit(digits[0]) && AllDigits(digits[1..]) && [digits[0]] + digits[1..] == digits
    ensures digits + rest != "" && (digits + rest)[0] == digits[0] && (digits + rest)[1..] == digits[1..] + rest
  {
    assert digits[0] in digits;
    assert forall c :: c in digits[1..] ==> c in digits;
  }

  lemma {:induction false} RunOf(digits: string, rest: string)
    requires AllDigits(digits) && (rest == "" || !IsDigit(rest[0]))
    ensures DigitRun(digits + rest) == digits
  {
    hide DigitRun, AllDigits, IsDigit;
    RunStep(digits + rest);
    if digits == "" {
      assert digits + rest == rest;
    } else {
      DigitsTail(digits, rest);
      RunOf(digits[1..], rest);
    }
  }

  const ULONG_MAX := 0xFFFF_FFFF_FFFF_FFFF

  /** strtoul in base ten with 64-bit longs: leading white space and a sign are accepted, a
      negative number wraps around, what follows the digits is ignored; None stands for no
      digits or a value out of range. */
  function Strtoul(s: string): (r: Option<nat>)
    ensures r.Some? ==> r.value <= ULONG_MAX
  {
    var t := LTrim(s);
    var signed := t != "" && (t[0] == '-' || t[0] == '+');
    var run := DigitRun(if signed then t[1..] else t);
    if run == "" || NumberOf(run) > ULONG_MAX then None
    else if signed && t[0] == '-' && NumberOf(run) != 0 then Some(ULONG_MAX + 1 - NumberOf(run))
    else Some(NumberOf(run))
  }

  lemma DigitFirst(d: string)
    requires d != "" && IsDigit(d[0])
    ensures LTrim(d) == d && d[0] != '-' && d[0] != '+'
  {
  }

  lemma DigitsAreRead(d: string)
    requires d != "" && AllDigits(d)
    ensures Strtoul(d) == if NumberOf(d) > ULONG_MAX then None else Some(NumberOf(d))
  {
    hide DigitRun, NumberOf, LTrim, AllDigits, IsDigit;
    FirstIsDigit(d);
    DigitFirst(d);
    RunOf(d, "");
    assert d + "" == d;
  }

  lemma FirstIsDigit(d: string)
    requires d != "" && AllDigits(d)
    ensures IsDigit(d[0])
  {
    assert d[0] in d;
  }

  /** Nothing but white space. */
  ghost predicate Blank(ws: string) { forall i :: 0 <= i < |ws| ==> ws[i] == ' ' || '\t' <= ws[i] <= '\r' }

  lemma {:induction false} SpacesOff(ws: string, s: string)
    requires Blank(ws)
    ensures LTrim(ws + s) == LTrim(s)
  {
    if ws == "" {
      assert ws + s == s;
    } else {
      assert (ws + s)[1..] == ws[1..] + s;
      SpacesOff(ws[1..], s);
    }
  }

  lemma NumberStarts(s: string)
    requires s != "" && (IsDigit(s[0]) || s[0] == '+' || s[0] == '-')
    ensures LTrim(s) == s
  {
  }

  lemma SignTaken(s: string, sign: string, d: string, rest: string)
    requires d != "" && AllDigits(d) && (rest == "" || !IsDigit(rest[0])) && (sign == "" || sign == "+" || sign == "-")
    requires LTrim(s) == LTrim(sign + (d + rest))
    ensures Strtoul(s) == if NumberOf(d) > ULONG_MAX then None
                          else if sign == "-" && NumberOf(d) != 0 then Some(ULONG_MAX + 1 - NumberOf(d))
                          else Some(NumberOf(d))
  {
    hide DigitRun, NumberOf, AllDigits, LTrim;
    var t := sign + (d + rest);
    FirstIsDigit(d);
    RunOf(d, rest);
    assert (d + rest)[0] == d[0];
    NumberStarts(t);
    if sign == "" {
      assert t == d + rest;
    } else {
      assert t[0] == sign[0] && t[1..] == d + rest;
    }
  }

  /** White space and a sign in front of a number, and whatever follows it: a minus sign turns
      a number that fits into its complement. */
  lemma SignedIsRead(ws: string, d: string, rest: string)
    requires d != "" && AllDigits(d) && (rest == "" || !IsDigit(rest[0]))
    requires Blank(ws)
    ensures var n := NumberOf(d);
            && Strtoul(ws + (d + rest)) == (if n < 0x1_0000_0000_0000_0000 then Some(n) else None)
            && Strtoul(ws + ("+" + (d + rest))) == Strtoul(ws + (d + rest))
            && Strtoul(ws + ("-" + (d + rest))) ==
               (if n >= 0x1_0000_0000_0000_0000 then None else if n == 0 then Some(0) else Some(0x1_0000_0000_0000_0000 - n))
  {
    hide DigitRun, NumberOf, AllDigits, LTrim, Strtoul;
    SpacesOff(ws, d + rest);
    SpacesOff(ws, "+" + (d + rest));
    SpacesOff(ws, "-" + (d + rest));
    assert "" + (d + rest) == d + rest;
    SignTaken(ws + (d + rest), "", d, rest);
    SignTaken(ws + ("+" + (d + rest)), "+", d, rest);
    SignTaken(ws + ("-" + (d + rest)), "-", d, rest);
  }

  lemma NoRun(s: string)
    requires s == "" || !IsDigit(s[0])
    ensures DigitRun(s) == ""
  {
  }

  lemma NoRunNoNumber(s: string, t: string, digits: string)
    requires t == LTrim(s) && digits == if t != "" && (t[0] == '-' || t[0] == '+') then t[1..] else t
    requires DigitRun(digits) == ""
    ensures Strtoul(s) == None
  {
    hide LTrim, DigitRun, NumberOf;
  }

  lemma TextStarts(s: string)
    requires s == "" || !(s[0] == ' ' || '\t' <= s[0] <= '\r')
    ensures LTrim(s) == s
  {
  }

  lemma SignFirst(sign: char, rest: string)
    requires sign == '+' || sign == '-'
    ensures var t := [sign] + rest; LTrim(t) == t && t != "" && t[0] == sign && t[1..] == rest
  {
    NumberStarts([sign] + rest);
  }

  lemma SignNoNumber(ws: string, sign: char, rest: string)
    requires Blank(ws) && (sign == '+' || sign == '-') && (rest == "" || !IsDigit(rest[0]))
    ensures Strtoul(ws + ([sign] + rest)) == None
  {
    hide LTrim, DigitRun, Strtoul, Blank, IsDigit;
    var t := [sign] + rest;
    SpacesOff(ws, t);
    SignFirst(sign, rest);
    NoRun(rest);
    NoRunNoNumber(ws + t, t, rest);
  }

  lemma TextNoNumber(ws: string, rest: string)
    requires Blank(ws)
    requires rest == "" || !(rest[0] == ' ' || '\t' <= rest[0] <= '\r' || IsDigit(rest[0]) || rest[0] == '+' || rest[0] == '-')
    ensures Strtoul(ws + rest) == None
  {
    hide LTrim, DigitRun, Strtoul, Blank, IsDigit;
    SpacesOff(ws, rest);
    TextStarts(rest);
    NoRun(rest);
    NoRunNoNumber(ws + rest, rest, rest);
  }

  /** Without a digit in its place there is no number. */
  lemma NoDigitsRefused(ws: string, rest: string)
    requires Blank(ws) && (rest == "" || !(rest[0] == ' ' || '\t' <= rest[0] <= '\r' || '0' <= rest[0] <= '9'))
    ensures rest == "" || (rest[0] != '+' && rest[0] != '-') ==> Strtoul(ws + rest) == None
    ensures Strtoul(ws + ("+" + rest)) == None
    ensures Strtoul(ws + ("-" + rest)) == None
  {
    hide Strtoul, Blank;
    SignNoNumber(ws, '+', rest);
    SignNoNumber(ws, '-', rest);
    if rest == "" || (rest[0] != '+' && rest[0] != '-') {
      TextNoNumber(ws, rest);
    }
  }
}
