/**
 * The pieces of Swift's `String` and collection library the app relies on:
 * the `<` comparison (used by `sorted()` and by `max(by:)`), keeping a list of
 * names sorted, and `firstIndex(of:)` / `lastIndex(of:)`.
 *
 * Swift orders strings by Unicode canonical equivalence; this model orders
 * them lexicographically by character.
 */
module Strings {
  import opened Optional

  /** `a < b` on strings: a proper prefix is smaller, otherwise the first differing character decides. */
  predicate Less(a: string, b: string)
    decreases |a|
  {
    if |a| == 0 then |b| > 0
    else |b| > 0 && (a[0] < b[0] || (a[0] == b[0] && Less(a[1..], b[1..])))
  }

  /**
   * `Less` is the lexicographic order: a proper prefix is smaller, a string is
   * never smaller than one of its prefixes, and otherwise the first position
   * where the two differ decides.
   */
  lemma {:induction false} LessIsLexicographic(a: string, b: string)
    ensures |a| < |b| && a == b[..|a|] ==> Less(a, b)
    ensures |b| <= |a| && b == a[..|b|] ==> !Less(a, b)
    ensures forall k :: 0 <= k < |a| && k < |b| && a[..k] == b[..k] && a[k] != b[k] ==> (Less(a, b) <==> a[k] < b[k])
    decreases |a|
  {
    if |a| > 0 && |b| > 0 {
      LessIsLexicographic(a[1..], b[1..]);
      if |a| < |b| && a == b[..|a|] {
        assert a[0] == b[0] && a[1..] == b[1..][..|a| - 1];
      }
      if |b| <= |a| && b == a[..|b|] {
        assert a[0] == b[0] && b[1..] == a[1..][..|b| - 1];
      }
      forall k | 0 < k < |a| && k < |b| && a[..k] == b[..k] && a[k] != b[k]
        ensures Less(a, b) <==> a[k] < b[k]
      {
        assert a[0] == a[..k][0] == b[..k][0] == b[0];
        assert a[1..][..k - 1] == a[1..k] == b[1..k] == b[1..][..k - 1];
        assert a[1..][k - 1] == a[k] && b[1..][k - 1] == b[k];
      }
    }
  }

  lemma {:induction false} LessIrreflexive(a: string)
    ensures !Less(a, a)
    decreases |a|
  {
    if |a| > 0 {
      LessIrreflexive(a[1..]);
    }
  }

  lemma {:induction false} LessTransitive(a: string, b: string, c: string)
    requires Less(a, b) && Less(b, c)
    ensures Less(a, c)
    decreases |a|
  {
    if |a| > 0 && a[0] == b[0] && b[0] == c[0] {
      LessTransitive(a[1..], b[1..], c[1..]);
    }
  }

  /** Any two different strings are ordered one way or the other, and never both ways. */
  lemma {:induction false} LessTotal(a: string, b: string)
    ensures a == b || Less(a, b) || Less(b, a)
    ensures !(Less(a, b) && Less(b, a))
    decreases |a|
  {
    if |a| > 0 && |b| > 0 && a[0] == b[0] {
      LessTotal(a[1..], b[1..]);
      if a[1..] == b[1..] {
        assert a == [a[0]] + a[1..] && b == [b[0]] + b[1..];
      }
    }
  }

  /** Sorted in ascending order with every name listed once. */
  predicate StrictlyAscending(s: seq<string>) {
    forall i, j :: 0 <= i < j < |s| ==> Less(s[i], s[j])
  }

  /** Adds `x` to an ascending list of distinct names, keeping it ascending and distinct. */
  function Insert(s: seq<string>, x: string): (r: seq<string>)
    requires StrictlyAscending(s)
    ensures StrictlyAscending(r)
    ensures forall y :: y in r <==> y in s || y == x
    decreases |s|
  {
    if |s| == 0 then [x]
    else if x == s[0] then s
    else if Less(x, s[0]) then
      InsertFrontAscending(s, x);
      [x] + s
    else
      var tail := Insert(s[1..], x);
      LessTotal(x, s[0]);
      assert forall y :: y in tail ==> Less(s[0], y);
      [s[0]] + tail
  }

  lemma InsertFrontAscending(s: seq<string>, x: string)
    requires StrictlyAscending(s) && |s| > 0 && Less(x, s[0])
    ensures StrictlyAscending([x] + s)
  {
    forall j | 0 < j < |s| ensures Less(x, s[j]) {
      LessTransitive(x, s[0], s[j]);
    }
  }

  /**
   * Two ascending lists of distinct names with the same names are equal:
   * the sorted listing of a set of names is unique.
   */
  lemma {:induction false} AscendingUnique(a: seq<string>, b: seq<string>)
    requires StrictlyAscending(a) && StrictlyAscending(b)
    requires forall y :: y in a <==> y in b
    ensures a == b
    decreases |a|
  {
    assert |a| > 0 ==> a[0] in b;
    assert |b| > 0 ==> b[0] in a;
    if |a| > 0 && |b| > 0 {
      var i :| 0 <= i < |a| && a[i] == b[0];
      var j :| 0 <= j < |b| && b[j] == a[0];
      assert i > 0 ==> Less(a[0], b[0]);
      assert j > 0 ==> Less(b[0], a[0]);
      LessTotal(a[0], b[0]);
      assert a[0] == b[0];
      assert a == [a[0]] + a[1..] && b == [b[0]] + b[1..];
      forall y ensures y in a[1..] <==> y in b[1..] {
        if y in a[1..] {
          var i :| 1 <= i < |a| && a[i] == y;
          LessIrreflexive(a[0]);
          assert y != a[0] && y in b;
        }
        if y in b[1..] {
          var j :| 1 <= j < |b| && b[j] == y;
          LessIrreflexive(b[0]);
          assert y != b[0] && y in a;
        }
      }
      AscendingUnique(a[1..], b[1..]);
      assert a == [a[0]] + a[1..] && b == [b[0]] + b[1..];
    }
  }

  /** Swift's `firstIndex(of:)`. */
  function FirstIndexOf(s: string, c: char): (r: Option<nat>)
    ensures r.Some? ==> r.value < |s| && s[r.value] == c && c !in s[..r.value]
    ensures r.None? ==> c !in s
  {
    if |s| == 0 then None
    else if s[0] == c then Some(0)
    else match FirstIndexOf(s[1..], c)
      case None => None
      case Some(k) =>
        assert s[..k + 1] == [s[0]] + s[1..][..k];
        Some(k + 1)
  }

  /** Swift's `lastIndex(of:)`. */
  function LastIndexOf(s: string, c: char): (r: Option<nat>)
    ensures r.Some? ==> r.value < |s| && s[r.value] == c && c !in s[r.value + 1..]
    ensures r.None? ==> c !in s
  {
    if |s| == 0 then None
    else if s[|s| - 1] == c then Some(|s| - 1)
    else
      var r := LastIndexOf(s[..|s| - 1], c);
      if r.Some? then
        assert s[r.value + 1..] == s[..|s| - 1][r.value + 1..] + [s[|s| - 1]];
        r
      else
        assert s == s[..|s| - 1] + [s[|s| - 1]];
        r
  }

  lemma NotInPrefix(s: string, c: char, n: nat)
    requires n <= |s| && c !in s[..n]
    ensures forall k :: 0 <= k < n ==> s[k] != c
  {
    forall k | 0 <= k < n ensures s[k] != c {
      assert s[..n][k] == s[k];
    }
  }

  lemma NotInSuffix(s: string, c: char, n: nat)
    requires n <= |s| && c !in s[n..]
    ensures forall k :: n <= k < |s| ==> s[k] != c
  {
    forall k | n <= k < |s| ensures s[k] != c {
      assert s[n..][k - n] == s[k];
    }
  }

  /** The search results are determined by where the character occurs. */
  lemma FirstIndexAt(s: string, c: char, i: nat)
    requires i < |s| && s[i] == c && c !in s[..i]
    ensures FirstIndexOf(s, c) == Some(i)
  {
    assert s[i] in s;
    var r := FirstIndexOf(s, c);
    NotInPrefix(s, c, i);
    NotInPrefix(s, c, r.value);
  }

  lemma LastIndexAt(s: string, c: char, i: nat)
    requires i < |s| && s[i] == c && c !in s[i + 1..]
    ensures LastIndexOf(s, c) == Some(i)
  {
    assert s[i] in s;
    var r := LastIndexOf(s, c);
    NotInSuffix(s, c, i + 1);
    NotInSuffix(s, c, r.value + 1);
  }
}
