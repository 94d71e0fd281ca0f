/**
 * The few string operations of Python that the batch tools rely on:
 * `sub in s`, `s.split(sep)[0]` and the ordering of `str` values.
 */
module Strings {
  import opened Wrappers

  /** `p` is a prefix of `s`. */
  predicate IsPrefix(p: string, s: string) {
    |p| <= |s| && s[..|p|] == p
  }

  /** Python's `sub in s`: `sub` occurs somewhere in `s` (the empty string occurs everywhere). */
  predicate Contains(s: string, sub: string)
    decreases |s|
    ensures Contains(s, sub) ==> |sub| <= |s|
  {
    IsPrefix(sub, s) || (|s| > 0 && Contains(s[1..], sub))
  }

  /** The index of the leftmost occurrence of `sub` in `s`, if any. */
  function FirstIndex(s: string, sub: string): (r: Option<nat>)
    decreases |s|
    ensures r.Some? ==> r.value + |sub| <= |s| && IsPrefix(sub, s[r.value..])
    ensures r.Some? ==> forall j :: 0 <= j < r.value ==> !IsPrefix(sub, s[j..])
    ensures r.None? ==> forall j :: 0 <= j <= |s| ==> !IsPrefix(sub, s[j..])
  {
    if IsPrefix(sub, s) then Some(0)
    else if |s| == 0 then None
    else
      DropFirst(s);
      match FirstIndex(s[1..], sub)
      case Some(k) => Some(k + 1)
      case None => None
  }

  /** Every suffix of `s` past its first character is a suffix of `s[1..]`. */
  lemma DropFirst(s: string)
    requires |s| > 0
    ensures forall j :: 1 <= j <= |s| ==> s[j..] == s[1..][j - 1..]
  {
  }

  /** `Contains` holds exactly when an occurrence starts at some position. */
  lemma {:induction false} ContainsAt(s: string, sub: string)
    ensures Contains(s, sub) <==> exists j :: 0 <= j <= |s| && IsPrefix(sub, s[j..])
    decreases |s|
  {
    assert s[0..] == s;
    if |s| > 0 {
      ContainsAt(s[1..], sub);
      DropFirst(s);
      if Contains(s, sub) && !IsPrefix(sub, s) {
        var j :| 0 <= j <= |s[1..]| && IsPrefix(sub, s[1..][j..]);
        assert IsPrefix(sub, s[j + 1..]);
      }
      if j :| 0 <= j <= |s| && IsPrefix(sub, s[j..]) {
        if j > 0 {
          assert IsPrefix(sub, s[1..][j - 1..]);
        }
      }
    }
  }

  /** `Contains` agrees with `FirstIndex`. */
  lemma ContainsIffFirstIndex(s: string, sub: string)
    ensures Contains(s, sub) <==> FirstIndex(s, sub).Some?
  {
    ContainsAt(s, sub);
  }

  /** Everything a string contains, each of its prefixes is contained in too. */
  lemma {:induction false} ContainsPrefixOf(s: string, p: string, q: string)
    requires Contains(s, p)
    requires IsPrefix(q, p)
    ensures Contains(s, q)
    decreases |s|
  {
    if IsPrefix(p, s) {
      assert s[..|q|] == p[..|q|];
    } else {
      ContainsPrefixOf(s[1..], p, q);
    }
  }

  /**
   * Python's `s.split(sep)[0]` for a non-empty `sep`: the text before the
   * leftmost occurrence of `sep`, or all of `s` when `sep` does not occur.
   * (Python raises ValueError for an empty `sep`; callers rule that case out
   * before calling, and here it yields the empty string.)
   */
  function BeforeFirst(s: string, sep: string): (r: string)
    ensures IsPrefix(r, s)
  {
    match FirstIndex(s, sep)
    case Some(k) => s[..k]
    case None => s
  }

  /**
   * When `sep` occurs in `s`, `BeforeFirst` stops right where its leftmost
   * occurrence starts; when it does not occur, nothing is cut off.
   */
  lemma BeforeFirstCutsAtFirstOccurrence(s: string, sep: string)
    ensures var k := |BeforeFirst(s, sep)|;
      BeforeFirst(s, sep) == s[..k]
      && (Contains(s, sep) ==> IsPrefix(sep, s[k..]) && forall j :: 0 <= j < k ==> !IsPrefix(sep, s[j..]))
      && (!Contains(s, sep) ==> BeforeFirst(s, sep) == s)
  {
    ContainsIffFirstIndex(s, sep);
  }

  /** The text before the first occurrence of a non-empty separator never contains it. */
  lemma BeforeFirstExcludesSeparator(s: string, sep: string)
    requires sep != []
    ensures !Contains(BeforeFirst(s, sep), sep)
  {
    var b := BeforeFirst(s, sep);
    ContainsIffFirstIndex(s, sep);
    ContainsAt(b, sep);
    forall j | 0 <= j <= |b|
      ensures !IsPrefix(sep, b[j..])
    {
      if j + |sep| <= |b| {
        assert b[j..][..|sep|] == s[j..][..|sep|];
      }
    }
  }

  /** Python's `a <= b` on `str`: code-point lexicographic order. */
  predicate LexLe(a: string, b: string)
    ensures IsPrefix(a, b) ==> LexLe(a, b)
  {
    assert a != [] && IsPrefix(a, b) ==> a[0] == b[0] && IsPrefix(a[1..], b[1..]);
    a == [] || (b != [] && (a[0] < b[0] || (a[0] == b[0] && LexLe(a[1..], b[1..]))))
  }

  /** Python's `a < b` on `str`. */
  predicate LexLt(a: string, b: string) {
    LexLe(a, b) && a != b
  }

  /** Any two strings are ordered one way or the other. */
  lemma {:induction false} LexLeTotal(a: string, b: string)
    ensures LexLe(a, b) || LexLe(b, a)
  {
    if a != [] && b != [] && a[0] == b[0] {
      LexLeTotal(a[1..], b[1..]);
    }
  }

  /** The order is transitive. */
  lemma {:induction false} LexLeTransitive(a: string, b: string, c: string)
    requires LexLe(a, b) && LexLe(b, c)
    ensures LexLe(a, c)
  {
    if a != [] && b != [] && c != [] && a[0] == b[0] == c[0] {
      LexLeTransitive(a[1..], b[1..], c[1..]);
    }
  }

  /** The order is antisymmetric. */
  lemma {:induction false} LexLeAntisymmetric(a: string, b: string)
    requires LexLe(a, b) && LexLe(b, a)
    ensures a == b
  {
    if a != [] && b != [] {
      LexLeAntisymmetric(a[1..], b[1..]);
      assert a == [a[0]] + a[1..] && b == [b[0]] + b[1..];
    }
  }
}
