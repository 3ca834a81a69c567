/** Oldest-first eviction of pasted images, internal/api/api_paste.go: an in-place stable sort, then a greedy scan. */
module PasteEviction {
  const MAX_DIR_BYTES := 50 * 1024 * 1024
  const MAX_DIR_FILES := 50

  datatype File = File(name: string, size: nat, modTime: int)

  // ---- the sort ----

  /** x behind every element that is not newer. */
  function Insert(sorted: seq<File>, x: File): seq<File> {
    if sorted == [] || sorted[|sorted| - 1].modTime <= x.modTime then sorted + [x]
    else Insert(sorted[..|sorted| - 1], x) + [sorted[|sorted| - 1]]
  }

  function StableSort(files: seq<File>): seq<File> {
    if files == [] then [] else Insert(StableSort(files[..|files| - 1]), files[|files| - 1])
  }

  predicate Sorted(files: seq<File>) {
    forall i, j :: 0 <= i <= j < |files| ==> files[i].modTime <= files[j].modTime
  }

  /** The files of one modification time, in order. */
  function AtTime(files: seq<File>, t: int): seq<File> {
    if files == [] then []
    else AtTime(files[..|files| - 1], t) + if files[|files| - 1].modTime == t then [files[|files| - 1]] else []
  }

  lemma {:induction false} AtTimeConcat(a: seq<File>, b: seq<File>, t: int)
    ensures AtTime(a + b, t) == AtTime(a, t) + AtTime(b, t)
  {
    if b == [] {
      assert a + b == a;
    } else {
      assert (a + b)[..|a + b| - 1] == a + b[..|b| - 1];
      AtTimeConcat(a, b[..|b| - 1], t);
    }
  }

  lemma AtTimeOne(x: File, t: int)
    ensures AtTime([x], t) == if x.modTime == t then [x] else []
  {
    assert [x][..0] == [];
  }

  lemma {:induction false} InsertSorted(sorted: seq<File>, x: File)
    requires Sorted(sorted)
    ensures Sorted(Insert(sorted, x)) && |Insert(sorted, x)| == |sorted| + 1
    ensures forall f :: f in Insert(sorted, x) ==> f in sorted || f == x
  {
    if sorted != [] && sorted[|sorted| - 1].modTime > x.modTime {
      var n := |sorted| - 1;
      var rest := Insert(sorted[..n], x);
      InsertSorted(sorted[..n], x);
      forall i | 0 <= i < |rest| ensures rest[i].modTime <= sorted[n].modTime {
        assert rest[i] in rest;
      }
    }
  }

  lemma InsertUnfold(sorted: seq<File>, x: File)
    ensures sorted == [] || sorted[|sorted| - 1].modTime <= x.modTime ==> Insert(sorted, x) == sorted + [x]
    ensures !(sorted == [] || sorted[|sorted| - 1].modTime <= x.modTime) ==>
              var n := |sorted| - 1;
              Insert(sorted, x) == Insert(sorted[..n], x) + [sorted[n]] && sorted == sorted[..n] + [sorted[n]]
  {
  }

  lemma {:induction false} InsertAtTime(sorted: seq<File>, x: File, t: int)
    ensures AtTime(Insert(sorted, x), t) == AtTime(sorted, t) + AtTime([x], t)
  {
    hide *;
    InsertUnfold(sorted, x);
    if sorted == [] || sorted[|sorted| - 1].modTime <= x.modTime {
      AtTimeConcat(sorted, [x], t);
    } else {
      var n := |sorted| - 1;
      InsertAtTime(sorted[..n], x, t);
      AtTimeConcat(Insert(sorted[..n], x), [sorted[n]], t);
      AtTimeConcat(sorted[..n], [sorted[n]], t);
      NotOnlyOlder(sorted[..n], sorted[n], x, t);
    }
  }

  /** Files of x's time and a newer file do not get in each other's way. */
  lemma NotOnlyOlder(older: seq<File>, newer: File, x: File, t: int)
    requires x.modTime < newer.modTime
    ensures AtTime(older, t) + AtTime([x], t) + AtTime([newer], t) == AtTime(older, t) + AtTime([newer], t) + AtTime([x], t)
  {
    AtTimeOne(x, t);
    AtTimeOne(newer, t);
  }

  /**
   * The sort is sorted and stable: for every time, the files of that time are the same and in the same
   * order as before, so in particular nothing is added or lost.
   */
  lemma {:induction false} StableSortFacts(files: seq<File>, t: int)
    ensures Sorted(StableSort(files)) && |StableSort(files)| == |files|
    ensures AtTime(StableSort(files), t) == AtTime(files, t)
  {
    if files != [] {
      var n := |files| - 1;
      StableSortFacts(files[..n], t);
      InsertSorted(StableSort(files[..n]), files[n]);
      InsertAtTime(StableSort(files[..n]), files[n], t);
      AtTimeOne(files[n], t);
    }
  }

  /** Where x ends up. */
  lemma {:induction false} InsertAt(sorted: seq<File>, x: File, j: nat)
    requires j <= |sorted|
    requires forall k :: j <= k < |sorted| ==> x.modTime < sorted[k].modTime
    requires j == 0 || sorted[j - 1].modTime <= x.modTime
    ensures Insert(sorted, x) == sorted[..j] + [x] + sorted[j..]
  {
    if j < |sorted| {
      InsertAt(sorted[..|sorted| - 1], x, j);
      assert sorted[..|sorted| - 1][..j] == sorted[..j];
      assert sorted[j..] == sorted[..|sorted| - 1][j..] + [sorted[|sorted| - 1]];
    } else {
      assert sorted[..j] == sorted && sorted[j..] == [];
    }
  }

  /** The two nested loops: adjacent swaps while the later file is strictly older. */
  method SortByTime(files: array<File>)
    modifies files
    ensures files[..] == StableSort(old(files[..]))
  {
    ghost var was := files[..];
    var n := files.Length;
    for i := 0 to n
      invariant files[..i] == StableSort(was[..i]) && files[i..] == was[i..]
    {
      assert was[..i + 1][..i] == was[..i] && files[i] == was[i..][0] == was[i];
      SinkOne(files, i);
      assert files[i + 1..] == was[i..][1..] == was[i + 1..];
    }
    assert was[..n] == was && files[..n] == files[..];
  }

  method SwapBack(files: array<File>, i: nat, j: nat)
    requires 0 < j <= i < files.Length
    modifies files
    ensures files[..i + 1] == old(files[..i + 1])[j := old(files[j - 1])][j - 1 := old(files[j])]
    ensures files[i + 1..] == old(files[i + 1..])
  {
    files[j], files[j - 1] := files[j - 1], files[j];
  }

  /** The inner loop, for the file at index i. */
  method SinkOne(files: array<File>, i: nat)
    requires i < files.Length
    modifies files
    ensures files[..i + 1] == Insert(old(files[..i]), old(files[i]))
    ensures files[i + 1..] == old(files[i + 1..])
  {
    hide Insert;
    ghost var sorted, x := files[..i], files[i];
    assert sorted[..i] == sorted && files[..i + 1] == sorted[..i] + [x] + sorted[i..];
    var j := i;
    while j > 0 && files[j].modTime < files[j - 1].modTime
      invariant j <= i && files[..i + 1] == sorted[..j] + [x] + sorted[j..]
      invariant forall k :: j <= k < i ==> x.modTime < sorted[k].modTime
      invariant files[i + 1..] == old(files[i + 1..])
    {
      Sunk(files[..i + 1], sorted, x, j);
      SwapBack(files, i, j);
      j := j - 1;
    }
    Sunk(files[..i + 1], sorted, x, j);
    InsertAt(sorted, x, j);
  }

  /** What stands around x while it sinks, and the state after one more swap. */
  lemma Sunk(s: seq<File>, sorted: seq<File>, x: File, j: nat)
    requires j <= |sorted| && s == sorted[..j] + [x] + sorted[j..]
    ensures s[j] == x && (j > 0 ==> s[j - 1] == sorted[j - 1])
    ensures j > 0 ==> s[j := s[j - 1]][j - 1 := s[j]] == sorted[..j - 1] + [x] + sorted[j - 1..]
  {
  }

  // ---- the eviction ----

  function TotalSize(files: seq<File>): nat {
    if files == [] then 0 else files[0].size + TotalSize(files[1..])
  }

  /** Room for the incoming bytes and for one more file. */
  predicate Fits(files: seq<File>, incoming: int) {
    TotalSize(files) + incoming <= MAX_DIR_BYTES && |files| < MAX_DIR_FILES
  }

  /**
   * evictOldest on the regular files of the directory, whose removals succeed: exactly the shortest prefix
   * of the files sorted by age goes that leaves room, or all of them if nothing does.
   */
  method EvictOldest(files: array<File>, incoming: int) returns (removed: seq<File>)
    modifies files
    ensures files[..] == StableSort(old(files[..]))
    ensures removed <= files[..]
    ensures forall k :: 0 <= k < |removed| ==> !Fits(files[k..], incoming)
    ensures Fits(files[|removed|..], incoming) || |removed| == files.Length
  {
    var totalSize := Sum(files);
    SortByTime(files);
    StableSortTotal(old(files[..]));
    removed := [];
    var k := 0;
    assert files[0..] == files[..];
    while k < files.Length
      invariant k <= files.Length && removed == files[..k]
      invariant totalSize == TotalSize(files[k..])
      invariant forall m :: 0 <= m < k ==> !Fits(files[m..], incoming)
      invariant files[..] == StableSort(old(files[..]))
    {
      if totalSize + incoming <= MAX_DIR_BYTES && files.Length - k < MAX_DIR_FILES {
        break;
      }
      assert files[k..][1..] == files[k + 1..];
      removed := removed + [files[k]];
      totalSize := totalSize - files[k].size;
      k := k + 1;
    }
  }

  method Sum(files: array<File>) returns (totalSize: nat)
    ensures totalSize == TotalSize(files[..])
  {
    totalSize := 0;
    for i := 0 to files.Length
      invariant totalSize == TotalSize(files[..i])
    {
      assert files[..i + 1] == files[..i] + [files[i]];
      TotalConcat(files[..i], [files[i]]);
      totalSize := totalSize + files[i].size;
    }
    assert files[..files.Length] == files[..];
  }

  lemma {:induction false} TotalConcat(a: seq<File>, b: seq<File>)
    ensures TotalSize(a + b) == TotalSize(a) + TotalSize(b)
  {
    if a == [] {
      assert a + b == b;
    } else {
      assert (a + b)[1..] == a[1..] + b;
      TotalConcat(a[1..], b);
    }
  }

  lemma {:induction false} InsertTotal(sorted: seq<File>, x: File)
    ensures TotalSize(Insert(sorted, x)) == TotalSize(sorted) + x.size
  {
    if sorted == [] || sorted[|sorted| - 1].modTime <= x.modTime {
      TotalConcat(sorted, [x]);
    } else {
      var n := |sorted| - 1;
      InsertTotal(sorted[..n], x);
      TotalConcat(Insert(sorted[..n], x), [sorted[n]]);
      TotalConcat(sorted[..n], [sorted[n]]);
      assert sorted == sorted[..n] + [sorted[n]];
    }
  }

  lemma {:induction false} StableSortTotal(files: seq<File>)
    ensures TotalSize(StableSort(files)) == TotalSize(files)
  {
    if files != [] {
      var n := |files| - 1;
      StableSortTotal(files[..n]);
      InsertTotal(StableSort(files[..n]), files[n]);
      TotalConcat(files[..n], [files[n]]);
      assert files == files[..n] + [files[n]];
    }
  }

  /** No removed file is newer than a kept one. */
  lemma RemovesOldest(files: seq<File>, k: nat, i: nat, j: nat)
    requires i < k <= j < |files|
    ensures |StableSort(files)| == |files| && StableSort(files)[i].modTime <= StableSort(files)[j].modTime
  {
    StableSortFacts(files, 0);
  }
}
