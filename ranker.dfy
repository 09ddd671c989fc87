/** The file ranker of the log tailer: which entry of a directory listing is
    the log file to follow. */
module Ranker {

  /** One entry of a directory listing; modification times are abstract integers. */
  datatype Entry = Entry(name: string, modTime: int, isDir: bool)

  /** Reading a directory either yields its listing or fails (the directory
      cannot be read, or the metadata of one of its entries cannot). */
  datatype DirRead = Listed(entries: seq<Entry>) | ReadFailed

  /** The path of an entry of directory dir. */
  function Join(dir: string, name: string): (path: string)
    ensures path != ""
  {
    dir + "/" + name
  }

  /** Different names in one directory give different paths. */
  lemma JoinInjective(dir: string, a: string, b: string)
    requires Join(dir, a) == Join(dir, b)
    ensures a == b
  {
    assert a == Join(dir, a)[|dir| + 1..];
    assert b == Join(dir, b)[|dir| + 1..];
  }

  /** The listing holds at least one entry that is not a directory. */
  predicate HasNonDirectory(files: seq<Entry>)
  {
    exists i :: 0 <= i < |files| && !files[i].isDir
  }

  /** files[i] is a non-directory entry and no non-directory entry is newer. */
  predicate Newest(files: seq<Entry>, i: int)
  {
    0 <= i < |files| && !files[i].isDir &&
    forall j :: 0 <= j < |files| && !files[j].isDir ==> files[j].modTime <= files[i].modTime
  }

  /** path is an answer the ranker may give for files: "" when every entry is
      a directory, and otherwise dir joined with the name of a newest
      non-directory entry. Which of several equally new entries wins is left open. */
  ghost predicate Selects(dir: string, files: seq<Entry>, path: string)
  {
    if HasNonDirectory(files) then exists i :: Newest(files, i) && path == Join(dir, files[i].name)
    else path == ""
  }

  /** Exactly one entry is the newest one. */
  ghost predicate NoTie(files: seq<Entry>)
  {
    forall i, j :: Newest(files, i) && Newest(files, j) ==> i == j
  }

  /** files[k] is the first newest non-directory entry in listing order:
      every earlier non-directory entry is strictly older. */
  predicate FirstNewest(files: seq<Entry>, k: int)
  {
    Newest(files, k) &&
    forall j :: 0 <= j < k && !files[j].isDir ==> files[j].modTime < files[k].modTime
  }

  /** At most one entry is the first newest one. */
  lemma FirstNewestUnique(files: seq<Entry>, i: int, k: int)
    requires FirstNewest(files, i) && FirstNewest(files, k)
    ensures i == k
  {
  }

  /** The index of the first newest non-directory entry, or -1 when every
      entry is a directory. */
  function RankIndex(files: seq<Entry>): (k: int)
    ensures -1 <= k < |files|
    ensures k < 0 <==> !HasNonDirectory(files)
    ensures k >= 0 ==> FirstNewest(files, k)
  {
    if files == [] then -1
    else
      var rest := files[1..];
      var r := RankIndex(rest);
      assert forall j :: 0 < j < |files| ==> files[j] == rest[j - 1];
      if files[0].isDir then (if r < 0 then -1 else r + 1)
      else if r < 0 || rest[r].modTime <= files[0].modTime then 0
      else r + 1
  }

  /** The ranking as a function of the listing: dir joined with the name of
      the first newest non-directory entry, or "". */
  function Rank(dir: string, files: seq<Entry>): (path: string)
    ensures Selects(dir, files, path)
    ensures path == "" <==> !HasNonDirectory(files)
  {
    var k := RankIndex(files);
    if k < 0 then "" else Join(dir, files[k].name)
  }

  /** Finds the current log file of directory dir: a newest entry that is not
      a directory, or "" when there is none. Newer directories never win.
      Among equally new entries the first in listing order wins, so the
      answer depends on the listing alone. */
  method LatestFile(dir: string, files: array<Entry>) returns (path: string)
    ensures path == Rank(dir, files[..])
    ensures Selects(dir, files[..], path)
    ensures path == "" <==> !HasNonDirectory(files[..])
  {
    var best := -1;
    var i := 0;
    while i < files.Length
      invariant 0 <= i <= files.Length
      invariant -1 <= best < i
      invariant best < 0 ==> forall j :: 0 <= j < i ==> files[j].isDir
      invariant best >= 0 ==> !files[best].isDir
      invariant best >= 0 ==> forall j :: 0 <= j < i && !files[j].isDir ==> files[j].modTime <= files[best].modTime
      invariant best >= 0 ==> forall j :: 0 <= j < best && !files[j].isDir ==> files[j].modTime < files[best].modTime
    {
      if !files[i].isDir && (best < 0 || files[i].modTime > files[best].modTime) {
        best := i;
      }
      i := i + 1;
    }
    if best < 0 {
      path := "";
      assert !HasNonDirectory(files[..]);
    } else {
      path := Join(dir, files[best].name);
      assert FirstNewest(files[..], best);
      FirstNewestUnique(files[..], best, RankIndex(files[..]));
    }
  }

  /** When one entry is strictly newest, every answer the ranker may give is
      the same path, so re-ranking an unchanged directory gives the same file. */
  lemma SelectsUnique(dir: string, files: seq<Entry>, p: string, q: string)
    requires NoTie(files)
    requires Selects(dir, files, p) && Selects(dir, files, q)
    ensures p == q
  {
  }

  /** The listing is ordered newest first, as the sort by modification time leaves it. */
  predicate NewestFirst(files: seq<Entry>)
  {
    forall i, j :: 0 <= i < j < |files| ==> files[j].modTime <= files[i].modTime
  }

  /** The path of the first entry that is not a directory, or "". */
  function FirstNonDirectory(dir: string, files: seq<Entry>): (path: string)
    ensures path == "" <==> !HasNonDirectory(files)
  {
    if files == [] then ""
    else if !files[0].isDir then Join(dir, files[0].name)
    else
      assert forall i :: 0 < i < |files| ==> files[1..][i - 1] == files[i];
      FirstNonDirectory(dir, files[1..])
  }

  /** On a newest-first listing, the first non-directory entry is a newest one. */
  lemma {:induction false} SortedScanSelects(dir: string, sorted: seq<Entry>)
    requires NewestFirst(sorted)
    ensures Selects(dir, sorted, FirstNonDirectory(dir, sorted))
  {
    if sorted == [] {
    } else if !sorted[0].isDir {
      assert Newest(sorted, 0);
    } else {
      var rest := sorted[1..];
      assert NewestFirst(rest);
      SortedScanSelects(dir, rest);
      if HasNonDirectory(rest) {
        var i :| Newest(rest, i) && FirstNonDirectory(dir, rest) == Join(dir, rest[i].name);
        assert Newest(sorted, i + 1);
      } else {
        assert !HasNonDirectory(sorted) by {
          forall i | 0 <= i < |sorted| ensures sorted[i].isDir {
            if i > 0 { assert sorted[i] == rest[i - 1]; }
          }
        }
      }
    }
  }

  /** Which answers are allowed depends only on the entries, not on their order. */
  lemma PermutationSelects(dir: string, s: seq<Entry>, t: seq<Entry>, path: string)
    requires multiset(s) == multiset(t)
    requires Selects(dir, s, path)
    ensures Selects(dir, t, path)
  {
    if HasNonDirectory(s) {
      var i :| Newest(s, i) && path == Join(dir, s[i].name);
      assert s[i] in multiset(t);
      var k :| 0 <= k < |t| && t[k] == s[i];
      forall j | 0 <= j < |t| && !t[j].isDir ensures t[j].modTime <= t[k].modTime {
        assert t[j] in multiset(s);
        var m :| 0 <= m < |s| && s[m] == t[j];
      }
      assert Newest(t, k);
    } else {
      forall j | 0 <= j < |t| ensures t[j].isDir {
        assert t[j] in multiset(s);
        var m :| 0 <= m < |s| && s[m] == t[j];
      }
    }
  }

  /** The ranking as the Go code computes it: sort a copy of the listing newest
      first, then take the first entry that is not a directory. Whatever
      order the sort leaves equal times in, the answer is one LatestFile may give. */
  lemma SortThenScan(dir: string, listing: seq<Entry>, sorted: seq<Entry>)
    requires multiset(sorted) == multiset(listing)
    requires NewestFirst(sorted)
    ensures Selects(dir, listing, FirstNonDirectory(dir, sorted))
  {
    SortedScanSelects(dir, sorted);
    PermutationSelects(dir, sorted, listing, FirstNonDirectory(dir, sorted));
  }
}
