/** Strictly increasing lists, and byte order on names. */
module Sorting {
  import VersionOrder

  ghost predicate Increasing<T>(less: (T, T) -> bool, s: seq<T>) {
    forall i, j :: 0 <= i < j < |s| ==> less(s[i], s[j])
  }

  lemma TailMembers<T>(less: (T, T) -> bool, s: seq<T>)
    requires Increasing(less, s) && s != [] && !less(s[0], s[0])
    ensures forall x :: x in s[1..] <==> x in s && x != s[0]
  {
    forall x | x in s[1..]
      ensures x in s && x != s[0]
    {
      var i :| 0 < i < |s| && s[i] == x;
      assert less(s[0], s[i]);
    }
    assert s == [s[0]] + s[1..];
  }

  /** A strictly increasing sequence is determined by its elements. */
  lemma {:induction false} IncreasingUnique<T>(less: (T, T) -> bool, a: seq<T>, b: seq<T>)
    requires Increasing(less, a) && Increasing(less, b)
    requires forall x :: x in a <==> x in b
    requires forall x, y :: x in a && y in a ==> !(less(x, y) && less(y, x))
    ensures a == b
  {
    if a == [] {
      assert forall k :: 0 <= k < |b| ==> b[k] in a;
    } else {
      assert a[0] in b;
      assert b[0] in a;
      assert a[0] == b[0];
      var a', b' := a[1..], b[1..];
      TailMembers(less, a);
      TailMembers(less, b);
      IncreasingUnique(less, a', b');
    }
  }

  lemma InsertedMembers<T>(s: seq<T>, p: nat, c: T)
    requires p <= |s|
    ensures forall x :: x in s[..p] + [c] + s[p..] <==> x in s || x == c
  {
    assert s == s[..p] + s[p..];
  }

  /** The order of std::string. */
  predicate Less(a: string, b: string) { VersionOrder.LexCompare(a, b) < 0 }

  lemma LessIff(a: string, b: string)
    ensures Less(a, b) <==> VersionOrder.Earlier(a, b)
  {
    VersionOrder.EarlierIff(a, b);
  }

  lemma LessIsStrictOrder(a: string, b: string, c: string)
    ensures !Less(a, a) && !(Less(a, b) && Less(b, a)) && (a == b || Less(a, b) || Less(b, a))
    ensures Less(a, b) && Less(b, c) ==> Less(a, c)
  {
    VersionOrder.LexAntisymmetric(a, b);
    if Less(a, b) && Less(b, c) {
      VersionOrder.LexTransitive(a, b, c);
    }
  }

  method InsertName(s: seq<string>, c: string) returns (r: seq<string>)
    requires Increasing(Less, s)
    ensures Increasing(Less, r)
    ensures forall x :: x in r <==> x in s || x == c
  {
    var p := 0;
    while p < |s| && Less(s[p], c)
      invariant 0 <= p <= |s| && forall k :: 0 <= k < p ==> Less(s[k], c)
    {
      p := p + 1;
    }
    if p < |s| && s[p] == c {
      return s;
    }
    forall k | p <= k < |s|
      ensures Less(c, s[k])
    {
      LessIsStrictOrder(s[p], c, c);
      LessIsStrictOrder(c, s[p], s[k]);
    }
    r := s[..p] + [c] + s[p..];
    InsertedMembers(s, p, c);
  }
}
