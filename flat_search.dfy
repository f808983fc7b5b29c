/**
  The flat-file index (`search.Search`), the older variant of the index engine.

  Paths are kept as lines of 26 list files, one per checksum range of width 100. Deleted
  paths collect in a recycle bin and new ones in a load set; a merge moves each group into
  the list files. The filesystem is a map from file to its lines (a missing key is a missing
  file), and the native checksum of a path's file name is the oracle `checksum`.
*/
module FlatSearch {
  import opened Common

  /** The number of list files: `list0-100` … `list2400-2500` and `list2500-`. */
  const BucketCount: nat := 26

  /** A list file `list<range>.txt`, or the `_list<range>.txt` a merge writes before renaming it. */
  datatype DataFile = ListFile(bucket: nat) | TempFile(bucket: nat)

  type Files = map<DataFile, seq<string>>

  /** The lines of `file`; a missing file reads as no lines. */
  function Content(files: Files, file: DataFile): seq<string>
  {
    if file in files then files[file] else []
  }

  // ---------------------------------------------------------------------------
  // Routing
  // ---------------------------------------------------------------------------

  /**
    The recycle-bin partition: [0, 100] is bucket 0, (100k, 100(k+1)] is bucket k for
    k = 1..24, and everything else (negative or above 2500) is bucket 25.
  */
  function PartitionBucket(sum: int): (k: nat)
    ensures k < BucketCount
    ensures k == 0 <==> 0 <= sum <= 100
    ensures k == 25 <==> sum < 0 || sum > 2500
    ensures 0 < k < 25 ==> 100 * k < sum <= 100 * (k + 1)
  {
    if 0 <= sum <= 100 then 0
    else if 100 < sum <= 2500 then (sum - 1) / 100
    else 25
  }

  /** Every bucket is exactly its range: the partition is the inverse of the range table. */
  lemma PartitionRanges(sum: int, k: nat)
    requires 0 < k < 25
    ensures PartitionBucket(sum) == k <==> 100 * k < sum <= 100 * (k + 1)
  {
    if 100 * k < sum <= 100 * (k + 1) {
      assert (sum - 1) / 100 == k;
    }
  }

  /**
    The list file `addRecordToLocal` writes to, as written: its first range is (0, 100], so a
    checksum of 0 falls through to `list2500-`. Every other checksum lands where the partition
    would look for it.
  */
  function LocalBucket(sum: int): (k: nat)
    ensures k < BucketCount
    ensures sum != 0 ==> k == PartitionBucket(sum)
    ensures sum == 0 ==> k == 25 && PartitionBucket(sum) == 0
  {
    if 0 < sum <= 100 then 0
    else if 100 < sum <= 2500 then (sum - 1) / 100
    else 25
  }

  /**
    The delete set each bucket is filtered with. As written, buckets 16..25 use bucket 15's set
    (`set1500`); the evident intent is each bucket's own set.
  */
  function FilterSet(k: nat, asWritten: bool): (j: nat)
    ensures !asWritten || k <= 15 ==> j == k
    ensures asWritten && k > 15 ==> j == 15
  {
    if asWritten && k > 15 then 15 else k
  }

  /** The recycle bin split into its 26 buckets. */
  function Partition(bin: seq<string>, checksum: string -> int): (parts: seq<set<string>>)
    ensures |parts| == BucketCount
  {
    seq(BucketCount, k => set p | p in bin && PartitionBucket(checksum(p)) == k)
  }

  /** Each path of the bin is in exactly the bucket of its checksum, and nothing else is in any bucket. */
  lemma PartitionExact(bin: seq<string>, checksum: string -> int, p: string, k: nat)
    requires k < BucketCount
    ensures p in Partition(bin, checksum)[k] <==> p in bin && PartitionBucket(checksum(p)) == k
  {
  }

  /** Buckets determined by membership are the partition. */
  lemma PartitionUnique(bin: seq<string>, checksum: string -> int, parts: seq<set<string>>)
    requires |parts| == BucketCount
    requires forall k, p :: 0 <= k < BucketCount ==> (p in parts[k] <==> p in bin && PartitionBucket(checksum(p)) == k)
    ensures parts == Partition(bin, checksum)
  {
    var expected := Partition(bin, checksum);
    forall k | 0 <= k < BucketCount
      ensures parts[k] == expected[k]
    {
      forall p ensures p in parts[k] <==> p in expected[k] {
        PartitionExact(bin, checksum, p, k);
      }
    }
  }

  // ---------------------------------------------------------------------------
  // Files as line sequences
  // ---------------------------------------------------------------------------

  /** The lines of `lines` that are not in `del`, in their order. */
  function Filtered(lines: seq<string>, del: set<string>): (r: seq<string>)
    ensures |r| <= |lines|
    ensures forall x :: x in r <==> x in lines && x !in del
    decreases |lines|
  {
    if lines == [] then []
    else
      var last := lines[|lines| - 1];
      Filtered(lines[..|lines| - 1], del) + (if last in del then [] else [last])
  }

  /** Filtering one more line keeps it exactly when it is not to be deleted. */
  lemma FilteredSnoc(lines: seq<string>, i: nat, del: set<string>)
    requires i < |lines|
    ensures Filtered(lines[..i + 1], del) == Filtered(lines[..i], del) + (if lines[i] in del then [] else [lines[i]])
  {
    assert lines[..i + 1][..i] == lines[..i];
  }

  /** Filtering keeps every line when none is to be deleted. */
  lemma {:induction false} FilteredKeepsAll(lines: seq<string>, del: set<string>)
    requires forall x :: x in lines ==> x !in del
    ensures Filtered(lines, del) == lines
    decreases |lines|
  {
    if lines != [] {
      var init := lines[..|lines| - 1];
      var last := lines[|lines| - 1];
      forall x | x in init ensures x !in del {
        var k :| 0 <= k < |init| && init[k] == x;
        assert lines[k] == x;
      }
      FilteredKeepsAll(init, del);
      assert last !in del;
      assert Filtered(lines, del) == Filtered(init, del) + [last];
      assert init + [last] == lines;
    }
  }

  /** Filtering with an empty set is the identity, and filtering twice with the same set is filtering once. */
  lemma FilteredIdempotent(lines: seq<string>, del: set<string>)
    ensures Filtered(lines, {}) == lines
    ensures Filtered(Filtered(lines, del), del) == Filtered(lines, del)
  {
    FilteredKeepsAll(lines, {});
    FilteredKeepsAll(Filtered(lines, del), del);
  }

  /**
    `deleteRecordInFile(del, src, dest)`: with a non-empty delete set and a readable source,
    appends to `dest` (creating it) the source lines not in the set, in order; otherwise writes
    nothing.
  */
  function DeleteRecords(files: Files, del: set<string>, src: DataFile, dest: DataFile): Files
  {
    if del == {} || src !in files then files
    else files[dest := Content(files, dest) + Filtered(files[src], del)]
  }

  /** `src.delete(); dest.renameTo(src)`: the source is removed and the temporary file, if any, takes its place. */
  function ReplaceWith(files: Files, src: DataFile, dest: DataFile): (r: Files)
    requires src != dest
    ensures dest !in r
    ensures src in r <==> dest in files
    ensures src in r ==> r[src] == files[dest]
    ensures forall d :: d != src && d != dest ==> (d in r <==> d in files) && (d in r ==> r[d] == files[d])
  {
    var removed := files - {src};
    if dest in removed then (removed - {dest})[src := files[dest]] else removed
  }

  /** One bucket of `mergeAndClearRecycleBin`: filter its list file into the temporary file, then swap. */
  function MergeBucket(files: Files, k: nat, del: set<string>): Files
  {
    ReplaceWith(DeleteRecords(files, del, ListFile(k), TempFile(k)), ListFile(k), TempFile(k))
  }

  /** Bucket `k` of the merge: skipped when its own set is empty, otherwise filtered with `FilterSet(k)`'s set. */
  function Step(files: Files, parts: seq<set<string>>, k: nat, asWritten: bool): Files
    requires |parts| == BucketCount && k < BucketCount
  {
    if parts[k] == {} then files else MergeBucket(files, k, parts[FilterSet(k, asWritten)])
  }

  /** Buckets `0 .. n-1` of the merge, in order. */
  function MergeBuckets(files: Files, parts: seq<set<string>>, n: nat, asWritten: bool): Files
    requires |parts| == BucketCount && n <= BucketCount
  {
    if n == 0 then files else Step(MergeBuckets(files, parts, n - 1, asWritten), parts, n - 1, asWritten)
  }

  /** `f` and `g` agree on whether `file` exists and on its lines. */
  predicate SameFile(f: Files, g: Files, file: DataFile)
  {
    (file in f <==> file in g) && (file in f ==> f[file] == g[file])
  }

  predicate SameBucket(f: Files, g: Files, k: nat)
  {
    SameFile(f, g, ListFile(k)) && SameFile(f, g, TempFile(k))
  }

  /** A bucket's step touches only that bucket's two files, and reads only them. */
  lemma StepLocal(f: Files, g: Files, parts: seq<set<string>>, k: nat, asWritten: bool, j: nat)
    requires |parts| == BucketCount && k < BucketCount
    ensures j != k ==> SameBucket(Step(f, parts, k, asWritten), f, j)
    ensures SameBucket(f, g, k) ==> SameBucket(Step(f, parts, k, asWritten), Step(g, parts, k, asWritten), k)
  {
  }

  /** Buckets not yet reached are untouched. */
  lemma {:induction false} MergeBucketsUntouched(files: Files, parts: seq<set<string>>, n: nat, asWritten: bool, k: nat)
    requires |parts| == BucketCount && n <= k && n <= BucketCount
    ensures SameBucket(MergeBuckets(files, parts, n, asWritten), files, k)
  {
    if n > 0 {
      MergeBucketsUntouched(files, parts, n - 1, asWritten, k);
      StepLocal(MergeBuckets(files, parts, n - 1, asWritten), files, parts, n - 1, asWritten, k);
    }
  }

  /** After the merge has passed bucket `k`, that bucket is exactly what its own step makes of the original files. */
  lemma {:induction false} MergeBucketsAt(files: Files, parts: seq<set<string>>, n: nat, asWritten: bool, k: nat)
    requires |parts| == BucketCount && k < n <= BucketCount
    ensures SameBucket(MergeBuckets(files, parts, n, asWritten), Step(files, parts, k, asWritten), k)
  {
    var before := MergeBuckets(files, parts, n - 1, asWritten);
    if k == n - 1 {
      MergeBucketsUntouched(files, parts, n - 1, asWritten, k);
      StepLocal(before, files, parts, k, asWritten, k);
    } else {
      MergeBucketsAt(files, parts, n - 1, asWritten, k);
      StepLocal(before, files, parts, n - 1, asWritten, k);
    }
  }

  /**
    With each bucket filtered by its own set, a full merge leaves every list file (that had no
    leftover temporary file) holding exactly its old lines minus the recycled paths of its bucket,
    and no temporary file behind.
  */
  lemma CorrectedMergeRemoves(files: Files, parts: seq<set<string>>, k: nat)
    requires |parts| == BucketCount && k < BucketCount
    requires ListFile(k) in files && TempFile(k) !in files
    ensures var r := MergeBuckets(files, parts, BucketCount, false);
      && TempFile(k) !in r && ListFile(k) in r
      && r[ListFile(k)] == Filtered(files[ListFile(k)], parts[k])
  {
    MergeBucketsAt(files, parts, BucketCount, false, k);
    FilteredIdempotent(files[ListFile(k)], parts[k]);
  }

  /**
    As written, a bucket above 15 whose own set is non-empty while bucket 15's set is empty loses
    its whole list file: nothing is written to the temporary file, the source is deleted, and
    the rename has nothing to move.
  */
  lemma AsWrittenMergeLosesBucket(files: Files, parts: seq<set<string>>, k: nat)
    requires |parts| == BucketCount && 15 < k < BucketCount
    requires parts[k] != {} && parts[15] == {} && TempFile(k) !in files
    ensures ListFile(k) !in MergeBuckets(files, parts, BucketCount, true)
  {
    MergeBucketsAt(files, parts, BucketCount, true, k);
  }

  /**
    As written, a bucket above 15 is filtered with bucket 15's paths: the paths recycled from
    its own range stay in its list file.
  */
  lemma AsWrittenMergeKeepsRecycled(files: Files, parts: seq<set<string>>, k: nat)
    requires |parts| == BucketCount && 15 < k < BucketCount
    requires parts[k] != {} && parts[15] != {}
    requires ListFile(k) in files && TempFile(k) !in files
    ensures var r := MergeBuckets(files, parts, BucketCount, true);
      ListFile(k) in r && r[ListFile(k)] == Filtered(files[ListFile(k)], parts[15])
  {
    MergeBucketsAt(files, parts, BucketCount, true, k);
  }

  /** `writeRecordToFile`: appends the record as a new line unless some line already equals it. */
  function AppendAbsent(files: Files, file: DataFile, record: string): (r: Files)
    ensures file in r && record in r[file]
    ensures Content(files, file) <= r[file]
    ensures forall d :: d != file ==> (d in r <==> d in files) && (d in r ==> r[d] == files[d])
    ensures record in Content(files, file) ==> r == files
    ensures record !in Content(files, file) ==> r[file] == Content(files, file) + [record]
  {
    if file in files && record in files[file] then files else files[file := Content(files, file) + [record]]
  }

  /** Writing the same record twice leaves one copy; writing only ever adds that record. */
  lemma WriteRecordIdempotent(files: Files, file: DataFile, record: string)
    ensures AppendAbsent(AppendAbsent(files, file, record), file, record) == AppendAbsent(files, file, record)
    ensures forall x :: x in AppendAbsent(files, file, record)[file] <==> x in Content(files, file) || x == record
    ensures record !in Content(files, file) ==>
      multiset(AppendAbsent(AppendAbsent(files, file, record), file, record)[file])[record] == 1
  {
    if record !in Content(files, file) {
      assert multiset(Content(files, file))[record] == 0;
    }
  }

  /** `mergeFileToList`'s loop: each path of the load set, in order, that exists on disk is added to its list file. */
  function LoadAll(files: Files, paths: seq<string>, onDisk: string -> bool, checksum: string -> int): Files
    decreases |paths|
  {
    if paths == [] then files
    else
      var last := paths[|paths| - 1];
      var f := LoadAll(files, paths[..|paths| - 1], onDisk, checksum);
      if onDisk(last) then AppendAbsent(f, ListFile(LocalBucket(checksum(last))), last) else f
  }

  /** Loading keeps every old line. */
  lemma {:induction false} LoadAllKeeps(files: Files, paths: seq<string>, onDisk: string -> bool, checksum: string -> int)
    ensures var r := LoadAll(files, paths, onDisk, checksum);
      forall d :: d in files ==> d in r && files[d] <= r[d]
    decreases |paths|
  {
    if paths != [] {
      var init := paths[..|paths| - 1];
      var last := paths[|paths| - 1];
      LoadAllKeeps(files, init, onDisk, checksum);
      var f := LoadAll(files, init, onDisk, checksum);
      if onDisk(last) {
        var r := AppendAbsent(f, ListFile(LocalBucket(checksum(last))), last);
        forall d | d in files ensures d in r && files[d] <= r[d] {
          assert files[d] <= f[d];
          if d == ListFile(LocalBucket(checksum(last))) {
            assert Content(f, d) <= r[d];
          }
        }
      }
    }
  }

  /** Loading puts every existing path into the list file its checksum routes it to. */
  lemma {:induction false} LoadAllAdds(files: Files, paths: seq<string>, onDisk: string -> bool, checksum: string -> int)
    ensures var r := LoadAll(files, paths, onDisk, checksum);
      forall p :: p in paths && onDisk(p) ==> ListFile(LocalBucket(checksum(p))) in r && p in r[ListFile(LocalBucket(checksum(p)))]
    decreases |paths|
  {
    if paths != [] {
      var init := paths[..|paths| - 1];
      var last := paths[|paths| - 1];
      LoadAllAdds(files, init, onDisk, checksum);
      assert paths == init + [last];
      var f := LoadAll(files, init, onDisk, checksum);
      var r := LoadAll(files, paths, onDisk, checksum);
      forall p | p in paths && onDisk(p)
        ensures ListFile(LocalBucket(checksum(p))) in r && p in r[ListFile(LocalBucket(checksum(p)))]
      {
        if p != last {
          assert p in init;
          var d := ListFile(LocalBucket(checksum(p)));
          if onDisk(last) && d == ListFile(LocalBucket(checksum(last))) {
            assert Content(f, d) <= r[d];
          }
        }
      }
    }
  }

  /** Loading adds nothing but existing paths of the load set. */
  lemma {:induction false} LoadAllOnlyAdds(files: Files, paths: seq<string>, onDisk: string -> bool, checksum: string -> int)
    ensures var r := LoadAll(files, paths, onDisk, checksum);
      forall d, x :: d in r && x in r[d] ==> (d in files && x in files[d]) || (x in paths && onDisk(x))
    decreases |paths|
  {
    if paths != [] {
      var init := paths[..|paths| - 1];
      var last := paths[|paths| - 1];
      LoadAllOnlyAdds(files, init, onDisk, checksum);
      assert paths == init + [last];
      var f := LoadAll(files, init, onDisk, checksum);
      if onDisk(last) {
        var r := AppendAbsent(f, ListFile(LocalBucket(checksum(last))), last);
        var target := ListFile(LocalBucket(checksum(last)));
        forall d, x | d in r && x in r[d] ensures (d in files && x in files[d]) || (x in paths && onDisk(x)) {
          if x == last {
            assert x in paths;
          } else if d == target {
            WriteRecordIdempotent(f, d, last);
            assert x in Content(f, d);
            assert d in f && x in f[d];
          } else {
            assert d in f && r[d] == f[d];
          }
          if !(d in files && x in files[d]) && x != last {
            assert x in init;
          }
        }
      }
    }
  }

  /**
    Loading keeps every old line, puts every existing path into the list file its checksum
    routes it to, and adds nothing else.
  */
  lemma LoadAllExact(files: Files, paths: seq<string>, onDisk: string -> bool, checksum: string -> int)
    ensures var r := LoadAll(files, paths, onDisk, checksum);
      && (forall d :: d in files ==> d in r && files[d] <= r[d])
      && (forall p :: p in paths && onDisk(p) ==> ListFile(LocalBucket(checksum(p))) in r && p in r[ListFile(LocalBucket(checksum(p)))])
      && (forall d, x :: d in r && x in r[d] ==> (d in files && x in files[d]) || (x in paths && onDisk(x)))
  {
    LoadAllKeeps(files, paths, onDisk, checksum);
    LoadAllAdds(files, paths, onDisk, checksum);
    LoadAllOnlyAdds(files, paths, onDisk, checksum);
  }

  /**
    As written, a path whose checksum is 0 is added to `list2500-` but recycled from `list0-100`:
    after adding it and then merging a recycle bin holding only it, its line is still there.
  */
  lemma ZeroChecksumRecordSurvives(files: Files, path: string, checksum: string -> int)
    requires checksum(path) == 0
    requires TempFile(25) !in files
    ensures var added := AppendAbsent(files, ListFile(LocalBucket(checksum(path))), path);
      var r := MergeBuckets(added, Partition([path], checksum), BucketCount, true);
      ListFile(25) in r && path in r[ListFile(25)]
  {
    var parts := Partition([path], checksum);
    assert parts[25] == {} by {
      forall p ensures p !in parts[25] {
        PartitionExact([path], checksum, p, 25);
      }
    }
    var added := AppendAbsent(files, ListFile(25), path);
    MergeBucketsAt(added, parts, BucketCount, true, 25);
  }

  /**
    Routed by the partition instead, a path with checksum 0 is written to `list0-100`, and the
    same merge removes it again.
  */
  lemma ZeroChecksumRecordRemoved(files: Files, path: string, checksum: string -> int)
    requires checksum(path) == 0
    requires TempFile(0) !in files
    ensures var added := AppendAbsent(files, ListFile(PartitionBucket(checksum(path))), path);
      var r := MergeBuckets(added, Partition([path], checksum), BucketCount, false);
      ListFile(0) in r && path !in r[ListFile(0)]
  {
    var parts := Partition([path], checksum);
    var fixed := AppendAbsent(files, ListFile(0), path);
    CorrectedMergeRemoves(fixed, parts, 0);
    PartitionExact([path], checksum, path, 0);
  }

  // ---------------------------------------------------------------------------
  // The index object
  // ---------------------------------------------------------------------------

  /** `Search`: the two path sets, the two flags, and the data directory's list files. */
  class FlatIndex {
    /** `isUsable`: the lists may be searched. */
    var isUsable: bool
    /** `isManualUpdate`: a full rebuild is running; merges are suspended. */
    var isManualUpdate: bool
    /** `RecycleBin`: an insertion-ordered set of paths to delete. */
    var recycleBin: seq<string>
    /** `listToLoad`: an insertion-ordered set of paths to add. */
    var listToLoad: seq<string>
    var files: Files
    /** The native checksum of a path's file name. */
    const checksum: string -> int

    constructor (files: Files, checksum: string -> int)
      ensures isUsable && !isManualUpdate && recycleBin == [] && listToLoad == []
      ensures this.files == files && this.checksum == checksum
    {
      isUsable := true;
      isManualUpdate := false;
      recycleBin := [];
      listToLoad := [];
      this.files := files;
      this.checksum := checksum;
    }

    /** `addToRecycleBin`: a set add. */
    method AddToRecycleBin(path: string)
      modifies this`recycleBin
      ensures recycleBin == if path in old(recycleBin) then old(recycleBin) else old(recycleBin) + [path]
    {
      if path !in recycleBin {
        recycleBin := recycleBin + [path];
      }
    }

    /** `addFileToLoadBin`: a set add. */
    method AddFileToLoadBin(path: string)
      modifies this`listToLoad
      ensures listToLoad == if path in old(listToLoad) then old(listToLoad) else old(listToLoad) + [path]
    {
      if path !in listToLoad {
        listToLoad := listToLoad + [path];
      }
    }

    /** `setManualUpdate`. */
    method SetManualUpdate(b: bool)
      modifies this`isManualUpdate
      ensures isManualUpdate == b
    {
      isManualUpdate := b;
    }

    /** `setUsable`: during a manual update the index is unusable whatever is asked. */
    method SetUsable(b: bool)
      modifies this`isUsable
      ensures isUsable == (b && !isManualUpdate)
    {
      if !isManualUpdate {
        isUsable := b;
      } else {
        isUsable := false;
      }
    }

    /** `isContained`: whether some line of `file` equals `record`; a missing file contains nothing. */
    method IsContained(record: string, file: DataFile) returns (found: bool)
      ensures found <==> record in Content(files, file)
    {
      if file !in files {
        return false;
      }
      var lines := files[file];
      var i := 0;
      while i < |lines|
        invariant 0 <= i <= |lines|
        invariant record !in lines[..i]
      {
        if lines[i] == record {
          return true;
        }
        i := i + 1;
      }
      return false;
    }

    /** `writeRecordToFile`: appends `record` to `file` (creating it) unless it is already a line there. */
    method WriteRecordToFile(record: string, file: DataFile)
      modifies this`files
      ensures files == AppendAbsent(old(files), file, record)
    {
      var contained := IsContained(record, file);
      if !contained {
        files := files[file := Content(files, file) + [record]];
      }
    }

    /** `deleteRecordInFile`: streams the source's lines not in `del` onto the end of `dest`. */
    method DeleteRecordInFile(del: set<string>, src: DataFile, dest: DataFile)
      modifies this`files
      ensures files == DeleteRecords(old(files), del, src, dest)
    {
      if del == {} || src !in files {
        return;
      }
      var lines := files[src];
      var kept: seq<string> := [];
      var i := 0;
      while i < |lines|
        invariant 0 <= i <= |lines|
        invariant kept == Filtered(lines[..i], del)
        invariant files == old(files)
      {
        FilteredSnoc(lines, i, del);
        if lines[i] !in del {
          kept := kept + [lines[i]];
        }
        i := i + 1;
      }
      assert lines[..i] == lines;
      files := files[dest := Content(files, dest) + kept];
    }

    /** `src.delete(); target.renameTo(src)`. */
    method ReplaceFile(src: DataFile, dest: DataFile)
      requires src != dest
      modifies this`files
      ensures files == ReplaceWith(old(files), src, dest)
    {
      var replaced := files - {src};
      if dest in replaced {
        replaced := (replaced - {dest})[src := files[dest]];
      }
      files := replaced;
    }

    /** The classification loop of `mergeAndClearRecycleBin`: each recycled path goes to the bucket of its checksum. */
    method PartitionRecycleBin() returns (parts: seq<set<string>>)
      ensures |parts| == BucketCount
      ensures forall k, p :: 0 <= k < BucketCount ==> (p in parts[k] <==> p in recycleBin && PartitionBucket(checksum(p)) == k)
    {
      parts := seq(BucketCount, _ => {});
      var i := 0;
      while i < |recycleBin|
        invariant 0 <= i <= |recycleBin|
        invariant |parts| == BucketCount
        invariant forall k, p :: 0 <= k < BucketCount ==> (p in parts[k] <==> p in recycleBin[..i] && PartitionBucket(checksum(p)) == k)
      {
        var path := recycleBin[i];
        var k := PartitionBucket(checksum(path));
        parts := parts[k := parts[k] + {path}];
        assert recycleBin[..i + 1] == recycleBin[..i] + [path];
        i := i + 1;
      }
      assert recycleBin[..i] == recycleBin;
    }

    /**
      `mergeAndClearRecycleBin`, as written: unless a manual update is running, partitions the bin,
      empties it, and rewrites each bucket whose set is non-empty (buckets above 15 with bucket
      15's set); the index is usable again at the end.
    */
    method MergeAndClearRecycleBin()
      modifies this`files, this`isUsable, this`recycleBin
      ensures isManualUpdate ==> unchanged(this)
      ensures !isManualUpdate ==>
        && recycleBin == [] && isUsable
        && files == MergeBuckets(old(files), Partition(old(recycleBin), checksum), BucketCount, true)
    {
      if isManualUpdate {
        return;
      }
      isUsable := false;
      var parts := PartitionRecycleBin();
      PartitionUnique(recycleBin, checksum, parts);
      recycleBin := [];
      var k := 0;
      while k < BucketCount
        invariant 0 <= k <= BucketCount
        invariant recycleBin == [] && !isManualUpdate
        invariant files == MergeBuckets(old(files), parts, k, true)
      {
        if parts[k] != {} {
          DeleteRecordInFile(parts[FilterSet(k, true)], ListFile(k), TempFile(k));
          ReplaceFile(ListFile(k), TempFile(k));
        }
        k := k + 1;
      }
      isUsable := true;
    }

    /** `addRecordToLocal`: writes the path to its list file, and marks the index usable unless a manual update is running. */
    method AddRecordToLocal(path: string)
      modifies this`files, this`isUsable
      ensures files == AppendAbsent(old(files), ListFile(LocalBucket(checksum(path))), path)
      ensures isUsable == (old(isUsable) || !isManualUpdate)
    {
      var k := LocalBucket(checksum(path));
      WriteRecordToFile(path, ListFile(k));
      if !isManualUpdate {
        isUsable := true;
      }
    }

    /**
      `mergeFileToList`: unless a manual update is running, adds each path of the load set that is
      on disk, in order, then empties the set; the index is usable at the end.
    */
    method MergeFileToList(onDisk: string -> bool)
      modifies this`files, this`isUsable, this`listToLoad
      ensures isManualUpdate ==> unchanged(this)
      ensures !isManualUpdate ==>
        && listToLoad == [] && isUsable
        && files == LoadAll(old(files), old(listToLoad), onDisk, checksum)
    {
      if isManualUpdate {
        return;
      }
      isUsable := false;
      var i := 0;
      while i < |listToLoad|
        invariant 0 <= i <= |listToLoad|
        invariant listToLoad == old(listToLoad) && !isManualUpdate
        invariant files == LoadAll(old(files), listToLoad[..i], onDisk, checksum)
      {
        assert listToLoad[..i + 1][..i] == listToLoad[..i];
        if onDisk(listToLoad[i]) {
          AddRecordToLocal(listToLoad[i]);
        }
        i := i + 1;
      }
      assert listToLoad[..i] == listToLoad;
      isUsable := true;
      listToLoad := [];
    }
  }
}
