/**
 * The directory listing both batch tools scan and Python's `sorted` over
 * the paths of one directory.
 */
module Listing {
  import opened Strings

  /**
   * One item of `Path.iterdir()`: `path` is what `item.as_posix()` gives,
   * `name` is `item.name` and `isDir` is `item.is_dir()`.
   */
  datatype Entry = Entry(path: string, name: string, isDir: bool)

  /** Entries are ordered by name, as paths in one directory are. */
  ghost predicate SortedByName(s: seq<Entry>) {
    forall i, j :: 0 <= i < j < |s| ==> LexLe(s[i].name, s[j].name)
  }

  /**
   * Inserts `e` after every entry whose name is not greater than its own.
   * This is the same stable insertion sort as `HostTraceLoader.InsertById`,
   * keyed on names instead of operator ids.
   */
  function InsertByName(e: Entry, s: seq<Entry>): (r: seq<Entry>)
    ensures multiset(r) == multiset(s) + multiset{e}
  {
    if s == [] then [e]
    else if LexLt(e.name, s[0].name) then [e] + s
    else
      assert s == [s[0]] + s[1..];
      [s[0]] + InsertByName(e, s[1..])
  }

  /** Python's `sorted(paths)` for paths that share one parent directory. */
  function SortByName(s: seq<Entry>): (r: seq<Entry>)
    ensures multiset(r) == multiset(s)
  {
    if s == [] then []
    else
      assert s == s[..|s| - 1] + [s[|s| - 1]];
      InsertByName(s[|s| - 1], SortByName(s[..|s| - 1]))
  }

  lemma {:induction false} InsertByNameSorted(e: Entry, s: seq<Entry>)
    requires SortedByName(s)
    ensures SortedByName(InsertByName(e, s))
  {
    if s != [] && !LexLt(e.name, s[0].name) {
      InsertByNameSorted(e, s[1..]);
      var t := InsertByName(e, s[1..]);
      LexLeTotal(e.name, s[0].name);
      forall x | x in t
        ensures LexLe(s[0].name, x.name)
      {
        assert x in multiset(t);
        if x != e {
          var j :| 0 <= j < |s[1..]| && s[1..][j] == x;
          assert s[j + 1] == x;
        }
      }
      forall i, j | 0 <= i < j < |[s[0]] + t|
        ensures LexLe(([s[0]] + t)[i].name, ([s[0]] + t)[j].name)
      {
        if i == 0 {
          assert ([s[0]] + t)[j] in t;
        }
      }
    } else if s != [] {
      forall j | 0 <= j < |s|
        ensures LexLe(e.name, s[j].name)
      {
        if j > 0 {
          LexLeTransitive(e.name, s[0].name, s[j].name);
        }
      }
    }
  }

  /** `SortByName` yields a name-ordered permutation of its input. */
  lemma {:induction false} SortByNameSorted(s: seq<Entry>)
    ensures SortedByName(SortByName(s))
    ensures multiset(SortByName(s)) == multiset(s)
  {
    if s != [] {
      SortByNameSorted(s[..|s| - 1]);
      InsertByNameSorted(s[|s| - 1], SortByName(s[..|s| - 1]));
    }
  }

  /** An entry is in the sorted listing exactly when it is in the listing. */
  lemma SortByNameMembers(s: seq<Entry>, e: Entry)
    ensures e in SortByName(s) <==> e in s
  {
    assert e in SortByName(s) <==> e in multiset(SortByName(s));
  }
}
