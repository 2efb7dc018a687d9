/**
 * Directory listings. The backend lists entries in an order of its own;
 * `files` keeps the file entries and sorts their paths, `directories` keeps
 * the directory entries in listing order.
 */
module Listing {

  /** One entry of `listContents`: a file or a directory, with its path. */
  datatype StorageEntry = FileEntry(path: string) | DirectoryEntry(path: string)

  /**
   * The order `sortByPath` compares paths by: character by character, a
   * proper prefix first.
   */
  function LexLe(a: string, b: string): (r: bool)
    ensures a <= b ==> r
    ensures r && a != [] ==> b != [] && a[0] <= b[0]
    decreases |a|
  {
    |a| == 0 || (|b| != 0 && (a[0] < b[0] || (a[0] == b[0] && LexLe(a[1..], b[1..]))))
  }

  /** `a` and `b` agree before index `k`, where `a` holds the smaller character. */
  ghost predicate SmallerAt(a: string, b: string, k: int)
  {
    0 <= k < |a| && k < |b| && a[..k] == b[..k] && a[k] < b[k]
  }

  /**
   * The order is the lexicographic one: `a` comes first exactly when it is a
   * prefix of `b` or holds the smaller character where they first differ.
   */
  lemma {:induction false} LexLeIsLexicographic(a: string, b: string)
    ensures LexLe(a, b) <==> a <= b || exists k :: SmallerAt(a, b, k)
    decreases |a|
  {
    if a != [] && b != [] && a[0] == b[0] {
      LexLeIsLexicographic(a[1..], b[1..]);
      if LexLe(a, b) && !(a <= b) {
        var k :| SmallerAt(a[1..], b[1..], k);
        assert a[..k + 1] == [a[0]] + a[1..][..k];
        assert b[..k + 1] == [b[0]] + b[1..][..k];
        assert SmallerAt(a, b, k + 1);
      }
      if a <= b {
        assert a[1..] <= b[1..];
      }
      if k :| SmallerAt(a, b, k) {
        assert k != 0;
        assert a[1..][..k - 1] == a[..k][1..];
        assert b[1..][..k - 1] == b[..k][1..];
        assert SmallerAt(a[1..], b[1..], k - 1);
      }
    } else if a != [] && b != [] && a[0] < b[0] {
      assert SmallerAt(a, b, 0);
    }
  }

  lemma {:induction false} LexLeTotal(a: string, b: string)
    ensures LexLe(a, b) || LexLe(b, a)
    decreases |a|
  {
    if |a| != 0 && |b| != 0 && a[0] == b[0] {
      LexLeTotal(a[1..], b[1..]);
    }
  }

  lemma {:induction false} LexLeReflexive(a: string)
    ensures LexLe(a, a)
    decreases |a|
  {
    if |a| != 0 {
      LexLeReflexive(a[1..]);
    }
  }

  lemma {:induction false} LexLeTransitive(a: string, b: string, c: string)
    requires LexLe(a, b) && LexLe(b, c)
    ensures LexLe(a, c)
    decreases |a|
  {
    if |a| != 0 && a[0] == b[0] && b[0] == c[0] {
      LexLeTransitive(a[1..], b[1..], c[1..]);
    }
  }

  lemma {:induction false} LexLeAntisymmetric(a: string, b: string)
    requires LexLe(a, b) && LexLe(b, a)
    ensures a == b
    decreases |a|
  {
    if |a| != 0 {
      LexLeAntisymmetric(a[1..], b[1..]);
      assert a == [a[0]] + a[1..];
      assert b == [b[0]] + b[1..];
    }
  }

  /** Every path is ordered before every later one. */
  predicate Sorted(s: seq<string>)
  {
    forall i, j :: 0 <= i < j < |s| ==> LexLe(s[i], s[j])
  }

  /** Inserts `x` into sorted `s`, before the first path it is ordered before. */
  function InsertPath(x: string, s: seq<string>): (r: seq<string>)
    requires Sorted(s)
    ensures Sorted(r)
    ensures multiset(r) == multiset(s) + multiset{x}
  {
    if s == [] then [x]
    else if LexLe(x, s[0]) then
      InsertBeforeHead(x, s);
      [x] + s
    else
      var t := InsertPath(x, s[1..]);
      InsertAfterHead(x, s, t);
      [s[0]] + t
  }

  /** A path ordered before the head of a sorted sequence may go in front of it. */
  lemma InsertBeforeHead(x: string, s: seq<string>)
    requires Sorted(s) && s != [] && LexLe(x, s[0])
    ensures Sorted([x] + s)
  {
    forall j | 0 <= j < |s| ensures LexLe(x, s[j]) {
      if j > 0 { LexLeTransitive(x, s[0], s[j]); }
    }
  }

  /**
   * A path not ordered before the head goes after it: the head stays in
   * front of the tail with the path inserted.
   */
  lemma InsertAfterHead(x: string, s: seq<string>, t: seq<string>)
    requires Sorted(s) && s != [] && !LexLe(x, s[0])
    requires Sorted(t) && multiset(t) == multiset(s[1..]) + multiset{x}
    ensures Sorted([s[0]] + t)
    ensures multiset([s[0]] + t) == multiset(s) + multiset{x}
  {
    LexLeTotal(x, s[0]);
    assert s == [s[0]] + s[1..];
    forall j | 0 <= j < |t| ensures LexLe(s[0], t[j]) {
      var y := t[j];
      assert y in multiset(t);
      if y != x {
        assert y in multiset(s[1..]);
        var k :| 0 <= k < |s[1..]| && s[1..][k] == y;
        assert s[k + 1] == y;
      }
    }
  }

  /** `sortByPath` projected to the paths: an insertion sort. */
  function SortPaths(s: seq<string>): (r: seq<string>)
    ensures Sorted(r)
    ensures multiset(r) == multiset(s)
  {
    if s == [] then []
    else
      assert s == [s[0]] + s[1..];
      InsertPath(s[0], SortPaths(s[1..]))
  }

  /** The first path of a sorted sequence is ordered before every path in it. */
  lemma SortedHeadLeast(s: seq<string>, x: string)
    requires Sorted(s) && x in multiset(s)
    ensures LexLe(s[0], x)
  {
    var i :| 0 <= i < |s| && s[i] == x;
    if i == 0 { LexLeReflexive(x); }
  }

  /** Dropping the first path keeps a sequence sorted and removes one copy of it. */
  lemma SortedTail(s: seq<string>)
    requires Sorted(s) && s != []
    ensures Sorted(s[1..])
    ensures multiset(s[1..]) == multiset(s) - multiset{s[0]}
  {
    assert s == [s[0]] + s[1..];
  }

  /**
   * Two sorted arrangements of the same non-empty multiset start with the
   * same path, and what follows it is again two sorted arrangements of one
   * multiset.
   */
  lemma SortedHeadsAgree(a: seq<string>, b: seq<string>)
    requires Sorted(a) && Sorted(b) && a != []
    requires multiset(a) == multiset(b)
    ensures b != [] && a[0] == b[0]
    ensures Sorted(a[1..]) && Sorted(b[1..]) && multiset(a[1..]) == multiset(b[1..])
  {
    assert |b| == |a| by { assert |multiset(b)| == |multiset(a)|; }
    assert b[0] in multiset(b) && a[0] in multiset(a);
    SortedHeadLeast(a, b[0]);
    SortedHeadLeast(b, a[0]);
    LexLeAntisymmetric(a[0], b[0]);
    SortedTail(a);
    SortedTail(b);
  }

  /**
   * A sorted arrangement of a multiset of paths is unique, so the sorted
   * listing does not depend on the sort's stability or on the order the
   * backend listed the entries in.
   */
  lemma {:induction false} SortedUnique(a: seq<string>, b: seq<string>)
    requires Sorted(a) && Sorted(b)
    requires multiset(a) == multiset(b)
    ensures a == b
    decreases |a|
  {
    if a != [] {
      SortedHeadsAgree(a, b);
      SortedUnique(a[1..], b[1..]);
      assert a == [a[0]] + a[1..];
      assert b == [b[0]] + b[1..];
    } else {
      assert |b| == |multiset(b)| == 0;
    }
  }

  /** The paths of the file entries, in listing order. */
  function FilePaths(entries: seq<StorageEntry>): (r: seq<string>)
    ensures |r| <= |entries|
    ensures forall p :: p in r <==> FileEntry(p) in entries
  {
    if entries == [] then []
    else
      var rest := FilePaths(entries[1..]);
      assert entries == [entries[0]] + entries[1..];
      if entries[0].FileEntry? then [entries[0].path] + rest else rest
  }

  /** The paths of the directory entries, in listing order. */
  function DirectoryPaths(entries: seq<StorageEntry>): (r: seq<string>)
    ensures |r| <= |entries|
    ensures forall p :: p in r <==> DirectoryEntry(p) in entries
  {
    if entries == [] then []
    else
      var rest := DirectoryPaths(entries[1..]);
      assert entries == [entries[0]] + entries[1..];
      if entries[0].DirectoryEntry? then [entries[0].path] + rest else rest
  }

  /** Keeping the directory entries preserves the order of the listing. */
  lemma {:induction false} DirectoryPathsConcat(a: seq<StorageEntry>, b: seq<StorageEntry>)
    ensures DirectoryPaths(a + b) == DirectoryPaths(a) + DirectoryPaths(b)
    decreases |a|
  {
    if a != [] {
      assert (a + b)[1..] == a[1..] + b;
      assert (a + b)[0] == a[0];
      DirectoryPathsConcat(a[1..], b);
      if a[0].DirectoryEntry? {
        assert DirectoryPaths(a + b) == [a[0].path] + DirectoryPaths(a[1..] + b);
        assert DirectoryPaths(a) == [a[0].path] + DirectoryPaths(a[1..]);
        assert [a[0].path] + (DirectoryPaths(a[1..]) + DirectoryPaths(b))
            == ([a[0].path] + DirectoryPaths(a[1..])) + DirectoryPaths(b);
      } else {
        assert DirectoryPaths(a + b) == DirectoryPaths(a[1..] + b);
        assert DirectoryPaths(a) == DirectoryPaths(a[1..]);
      }
    } else {
      assert a + b == b;
    }
  }

  /** Every entry is a file or a directory, so the two filters split the listing. */
  lemma {:induction false} ListingPartition(entries: seq<StorageEntry>)
    ensures |FilePaths(entries)| + |DirectoryPaths(entries)| == |entries|
    decreases |entries|
  {
    if entries != [] {
      ListingPartition(entries[1..]);
    }
  }

  /** `files`' pipeline: keep the file entries, sort by path, take the paths. */
  function SortedFilePaths(entries: seq<StorageEntry>): (r: seq<string>)
    ensures Sorted(r)
    ensures multiset(r) == multiset(FilePaths(entries))
    ensures forall p :: p in r <==> FileEntry(p) in entries
  {
    var r := SortPaths(FilePaths(entries));
    assert forall p :: p in r <==> p in multiset(r);
    r
  }

  /** Directory listings are not sorted: they keep the backend's order. */
  lemma DirectoriesKeepBackendOrder()
    ensures DirectoryPaths([DirectoryEntry("b"), FileEntry("c"), DirectoryEntry("a")]) == ["b", "a"]
  {
    var entries := [DirectoryEntry("b"), FileEntry("c"), DirectoryEntry("a")];
    assert entries[1..] == [FileEntry("c"), DirectoryEntry("a")];
    assert entries[1..][1..] == [DirectoryEntry("a")];
  }

  /** File listings are sorted whatever order the backend listed them in. */
  lemma FilesAreSortedByPath()
    ensures SortedFilePaths([FileEntry("b"), DirectoryEntry("c"), FileEntry("a")]) == ["a", "b"]
  {
    var entries := [FileEntry("b"), DirectoryEntry("c"), FileEntry("a")];
    assert entries[1..] == [DirectoryEntry("c"), FileEntry("a")];
    assert entries[1..][1..] == [FileEntry("a")];
    assert FilePaths(entries) == ["b", "a"];
    assert SortPaths(["a"]) == ["a"] by {
      assert ["a"][1..] == [];
    }
    assert ["b", "a"][1..] == ["a"];
    assert !LexLe("b", "a");
    assert InsertPath("b", ["a"]) == ["a", "b"] by {
      assert ["a"][1..] == [];
    }
  }
}
