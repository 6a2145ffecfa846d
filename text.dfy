/** The string operations the core relies on: ASCII lower-casing, suffix tests
    and Python's code-point order on strings (the order `sorted` uses). */
module Text {

  function LowerChar(c: char): char {
    if 'A' <= c <= 'Z' then (c as int + 32) as char else c
  }

  function Lower(s: string): (r: string)
    ensures |r| == |s|
    ensures forall k :: 0 <= k < |s| ==> r[k] == LowerChar(s[k])
  {
    seq(|s|, k requires 0 <= k < |s| => LowerChar(s[k]))
  }

  /** Python's `s.endswith(suffix)`. */
  predicate EndsWith(s: string, suffix: string) {
    |suffix| <= |s| && s[|s| - |suffix|..] == suffix
  }

  /** Python's `a < b` on `str`: lexicographic by code point, a proper prefix first. */
  predicate Less(a: string, b: string) {
    if a == [] then b != []
    else if b == [] then false
    else if a[0] != b[0] then a[0] < b[0]
    else Less(a[1..], b[1..])
  }

  lemma {:induction false} LessIrreflexive(a: string)
    ensures !Less(a, a)
  {
    if a != [] { LessIrreflexive(a[1..]); }
  }

  lemma {:induction false} LessAsymmetric(a: string, b: string)
    requires Less(a, b)
    ensures !Less(b, a)
  {
    if a != [] && b != [] && a[0] == b[0] { LessAsymmetric(a[1..], b[1..]); }
  }

  lemma {:induction false} LessTransitive(a: string, b: string, c: string)
    requires Less(a, b) && Less(b, c)
    ensures Less(a, c)
  {
    if a != [] && b != [] && c != [] && a[0] == b[0] && b[0] == c[0] {
      LessTransitive(a[1..], b[1..], c[1..]);
    }
  }

  lemma {:induction false} LessTotal(a: string, b: string)
    requires a != b
    ensures Less(a, b) || Less(b, a)
  {
    if a != [] && b != [] && a[0] == b[0] {
      assert a == [a[0]] + a[1..] && b == [b[0]] + b[1..];
      LessTotal(a[1..], b[1..]);
    }
  }

  /** Every pair of positions is in strictly increasing order: sorted, no duplicates. */
  predicate StrictlySorted(s: seq<string>) {
    forall i, j :: 0 <= i < j < |s| ==> Less(s[i], s[j])
  }

  /** Adds `t` to a strictly sorted list, keeping it strictly sorted (a set insert). */
  function Insert(t: string, s: seq<string>): (r: seq<string>)
    requires StrictlySorted(s)
    ensures StrictlySorted(r)
    ensures forall x :: x in r <==> x in s || x == t
    decreases |s|
  {
    if s == [] then [t]
    else if t == s[0] then s
    else if Less(t, s[0]) then
      assert forall j :: 0 < j < |s| ==> Less(t, s[j]) by {
        forall j | 0 < j < |s| ensures Less(t, s[j]) { LessTransitive(t, s[0], s[j]); }
      }
      [t] + s
    else
      LessTotal(t, s[0]);
      var rest := Insert(t, s[1..]);
      assert forall x :: x in rest ==> Less(s[0], x);
      [s[0]] + rest
  }

  /** A strictly sorted list is determined by its elements: this is why inserting
      tags one at a time yields exactly Python's `sorted(set(tags))`. */
  lemma {:induction false} StrictlySortedUnique(a: seq<string>, b: seq<string>)
    requires StrictlySorted(a) && StrictlySorted(b)
    requires forall x :: x in a <==> x in b
    ensures a == b
  {
    if a != [] { assert a[0] in b; }
    if b != [] { assert b[0] in a; }
    if a != [] {
      var j :| 0 <= j < |b| && b[j] == a[0];
      assert b[0] in a;
      var i :| 0 <= i < |a| && a[i] == b[0];
      if j > 0 {
        if i > 0 {
          LessAsymmetric(a[0], a[i]);
        } else {
          LessIrreflexive(b[0]);
        }
      }
      assert a[0] == b[0];
      forall x
        ensures x in a[1..] <==> x in b[1..]
      {
        if x in a[1..] {
          var k :| 1 <= k < |a| && a[k] == x;
          if x == b[0] { LessIrreflexive(x); }
          assert x in b;
          var m :| 0 <= m < |b| && b[m] == x;
          assert m != 0;
        }
        if x in b[1..] {
          var k :| 1 <= k < |b| && b[k] == x;
          if x == a[0] { LessIrreflexive(x); }
          assert x in a;
          var m :| 0 <= m < |a| && a[m] == x;
          assert m != 0;
        }
      }
      StrictlySortedUnique(a[1..], b[1..]);
      assert a == [a[0]] + a[1..] && b == [b[0]] + b[1..];
    }
  }
}
