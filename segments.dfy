/**
 * The segment stage of the job: every segment is downloaded into its own
 * file `segment_{i}.ts` of the working folder, the results come back in
 * index order with `None` for the failed ones, the failures are dropped,
 * and the surviving files are concatenated into one transport stream.
 * The folder is a map from path to contents.
 */
module Segments {
  import opened Common
  import opened Text

  type Byte = b: int | 0 <= b < 256
  type Bytes = seq<Byte>

  /** The working folder: the contents of each existing file, by path. */
  type Files = map<string, Bytes>

  const SegmentFolder: string := "/app/segment_folder"

  /** `os.path.join(dir, name)` for two path components. */
  function PathJoin(dir: string, name: string): string {
    if name != [] && name[0] == '/' then name
    else if dir == [] || dir[|dir| - 1] == '/' then dir + name
    else dir + "/" + name
  }

  /**
   * An absolute name replaces the directory; a relative one is appended to
   * it, with exactly one `/` between them unless the directory already ends
   * in one (or is empty).
   */
  lemma PathJoinShape(dir: string, name: string)
    ensures |name| > 0 && name[0] == '/' ==> PathJoin(dir, name) == name
    ensures (name == [] || name[0] != '/') ==>
              var path := PathJoin(dir, name);
              && |path| == |dir| + |name| + (if dir == [] || dir[|dir| - 1] == '/' then 0 else 1)
              && dir <= path && path[|path| - |name|..] == name
              && (dir != [] ==> path[|path| - |name| - 1] == '/')
  {
  }

  /** Where segment `i` is downloaded to. */
  function SegmentPath(i: nat): (path: string)
    ensures path != ""
  {
    PathJoin(SegmentFolder, "segment_" + NatToString(i) + ".ts")
  }

  const CombinedPath: string := PathJoin(SegmentFolder, "combined_segments.ts")
  const Mp4Path: string := PathJoin(SegmentFolder, "final_video.mp4")

  /** Two segments never share a file. */
  lemma {:induction false} SegmentPathInjective(i: nat, j: nat)
    ensures SegmentPath(i) == SegmentPath(j) ==> i == j
  {
    var prefix := SegmentFolder + "/segment_";
    var a, b := NatToString(i), NatToString(j);
    assert SegmentPath(i) == prefix + a + ".ts";
    assert SegmentPath(j) == prefix + b + ".ts";
    if SegmentPath(i) == SegmentPath(j) {
      assert |a| == |b|;
      assert a == SegmentPath(i)[|prefix|..|prefix| + |a|];
      assert b == SegmentPath(j)[|prefix|..|prefix| + |b|];
      NatToStringInjective(i, j);
    }
  }

  /** No segment file is the combined stream or the converted video. */
  lemma SegmentPathIsNotOutput(i: nat)
    ensures SegmentPath(i) != CombinedPath && SegmentPath(i) != Mp4Path
  {
    var n := |SegmentFolder| + 1;
    assert SegmentPath(i)[n] == 's';
    assert CombinedPath[n] == 'c';
    assert Mp4Path[n] == 'f';
  }

  /**
   * How the request for one segment ends: the whole body arrives, or it
   * fails, either before the file was opened (`written == None`: connection
   * error, error status) or while streaming, leaving the bytes written so far.
   */
  datatype FetchOutcome = Fetched(body: Bytes) | FetchFailed(written: Option<Bytes>)

  /**
   * `download_segment`: the path when the body was stored in it, `None`
   * when anything failed. Only the file at `path` can change.
   */
  function DownloadSegment(files: Files, outcome: FetchOutcome, path: string): (r: (Files, Option<string>))
    ensures r.1 == Some(path) <==> outcome.Fetched?
    ensures r.1 == None <==> outcome.FetchFailed?
    ensures outcome.Fetched? ==> path in r.0 && r.0[path] == outcome.body
    ensures forall p :: p != path ==> (p in r.0 <==> p in files) && (p in files ==> r.0[p] == files[p])
  {
    match outcome
    case Fetched(body) => (files[path := body], Some(path))
    case FetchFailed(None) => (files, None)
    case FetchFailed(Some(partial)) => (files[path := partial], None)
  }

  /** What `asyncio.gather` hands back: each download's result at its own index. */
  function Gathered(outcomes: seq<FetchOutcome>): seq<Option<string>> {
    seq(|outcomes|, i requires 0 <= i < |outcomes| => if outcomes[i].Fetched? then Some(SegmentPath(i)) else None)
  }

  /** The folder after download `i` has run for every `i`, in index order. */
  function AfterFetch(files: Files, outcomes: seq<FetchOutcome>): Files {
    if outcomes == [] then files
    else
      var n := |outcomes| - 1;
      DownloadSegment(AfterFetch(files, outcomes[..n]), outcomes[n], SegmentPath(n)).0
  }

  /**
   * The download stage: one `download_segment` per URL into `segment_{i}.ts`,
   * gathered in index order. The downloads run concurrently in the handler;
   * their files are pairwise distinct (`SegmentPathInjective`), so running
   * them one after another gives the same folder.
   */
  method FetchAll(files: Files, outcomes: seq<FetchOutcome>) returns (results: seq<Option<string>>, stored: Files)
    ensures results == Gathered(outcomes)
    ensures stored == AfterFetch(files, outcomes)
  {
    results, stored := [], files;
    var i := 0;
    while i < |outcomes|
      invariant i <= |outcomes|
      invariant results == Gathered(outcomes[..i])
      invariant stored == AfterFetch(files, outcomes[..i])
    {
      var r := DownloadSegment(stored, outcomes[i], SegmentPath(i));
      assert outcomes[..i + 1][..i] == outcomes[..i];
      stored, results := r.0, results + [r.1];
      i := i + 1;
    }
    assert outcomes[..i] == outcomes;
  }

  /** After the stage, every successful segment's file holds exactly its body. */
  lemma {:induction false} StoredSegment(files: Files, outcomes: seq<FetchOutcome>, i: nat)
    requires i < |outcomes| && outcomes[i].Fetched?
    ensures SegmentPath(i) in AfterFetch(files, outcomes)
    ensures AfterFetch(files, outcomes)[SegmentPath(i)] == outcomes[i].body
  {
    var n := |outcomes| - 1;
    if i < n {
      assert outcomes[..n][i] == outcomes[i];
      StoredSegment(files, outcomes[..n], i);
      SegmentPathInjective(i, n);
    }
  }

  /** Files that are not segment files of this job are left as they were. */
  lemma {:induction false} FetchKeepsOtherFiles(files: Files, outcomes: seq<FetchOutcome>, p: string)
    requires forall i :: 0 <= i < |outcomes| ==> p != SegmentPath(i)
    ensures p in AfterFetch(files, outcomes) <==> p in files
    ensures p in files ==> AfterFetch(files, outcomes)[p] == files[p]
  {
    if outcomes != [] {
      FetchKeepsOtherFiles(files, outcomes[..|outcomes| - 1], p);
    }
  }

  /** The stage only writes files: everything already in the folder is still there. */
  lemma {:induction false} FetchKeepsFiles(files: Files, outcomes: seq<FetchOutcome>)
    ensures forall p :: p in files ==> p in AfterFetch(files, outcomes)
  {
    if outcomes != [] {
      FetchKeepsFiles(files, outcomes[..|outcomes| - 1]);
    }
  }

  /** A download that failed while streaming leaves its partial file behind. */
  lemma {:induction false} PartialSegmentLeft(files: Files, outcomes: seq<FetchOutcome>, i: nat)
    requires i < |outcomes| && outcomes[i].FetchFailed? && outcomes[i].written.Some?
    ensures SegmentPath(i) in AfterFetch(files, outcomes)
    ensures AfterFetch(files, outcomes)[SegmentPath(i)] == outcomes[i].written.value
  {
    var n := |outcomes| - 1;
    if i < n {
      assert outcomes[..n][i] == outcomes[i];
      PartialSegmentLeft(files, outcomes[..n], i);
      SegmentPathInjective(i, n);
    }
  }

  /** `if f`: a result is kept when it is a non-empty path. */
  function PathIfTruthy(result: Option<string>): Option<string> {
    if result.Some? && result.value != "" then result else None
  }

  /** `[f for f in downloaded_files if f]`. */
  function Downloaded(results: seq<Option<string>>): (paths: seq<string>)
    ensures |paths| <= |results|
    ensures forall p :: p in paths ==> p != "" && Some(p) in results
  {
    KeptAreResults(results);
    FilterMap(results, PathIfTruthy)
  }

  lemma KeptAreResults(results: seq<Option<string>>)
    ensures forall p :: p in FilterMap(results, PathIfTruthy) ==> p != "" && Some(p) in results
  {
    var kept := FilterMap(results, PathIfTruthy);
    forall p | p in kept
      ensures p != "" && Some(p) in results
    {
      var k :| 0 <= k < |kept| && kept[k] == p;
      var i := FilterMapOrigin(results, PathIfTruthy, k);
      assert results[i] == Some(p);
    }
  }

  /** The number of failed downloads. */
  function Failures(outcomes: seq<FetchOutcome>): nat {
    if outcomes == [] then 0
    else Failures(outcomes[..|outcomes| - 1]) + (if outcomes[|outcomes| - 1].FetchFailed? then 1 else 0)
  }

  lemma {:induction false} KeptBefore(outcomes: seq<FetchOutcome>, n: nat)
    requires n <= |outcomes|
    ensures Failures(outcomes[..n]) <= n
    ensures CountSome(Gathered(outcomes)[..n], PathIfTruthy) == n - Failures(outcomes[..n])
  {
    if n > 0 {
      KeptBefore(outcomes, n - 1);
      FilterMapPrefix(Gathered(outcomes), PathIfTruthy, n - 1);
      assert outcomes[..n][..n - 1] == outcomes[..n - 1];
    }
  }

  /** The filter keeps one path per successful download: N minus the failures. */
  lemma DownloadedCount(outcomes: seq<FetchOutcome>)
    ensures Failures(outcomes) <= |outcomes|
    ensures |Downloaded(Gathered(outcomes))| == |outcomes| - Failures(outcomes)
  {
    KeptBefore(outcomes, |outcomes|);
    assert Gathered(outcomes)[..|outcomes|] == Gathered(outcomes);
    assert outcomes[..|outcomes|] == outcomes;
    FilterMapLength(Gathered(outcomes), PathIfTruthy);
  }

  /** Index order is kept: successful segment `i` comes after the successes before it. */
  lemma DownloadedInOrder(outcomes: seq<FetchOutcome>, i: nat)
    requires i < |outcomes| && outcomes[i].Fetched?
    ensures Failures(outcomes[..i]) <= i
    ensures i - Failures(outcomes[..i]) < |Downloaded(Gathered(outcomes))|
    ensures Downloaded(Gathered(outcomes))[i - Failures(outcomes[..i])] == SegmentPath(i)
  {
    KeptBefore(outcomes, i);
    FilterMapPosition(Gathered(outcomes), PathIfTruthy, i);
  }

  /** Every kept path is the file of a successful download. */
  lemma DownloadedFrom(outcomes: seq<FetchOutcome>, k: nat) returns (i: nat)
    requires k < |Downloaded(Gathered(outcomes))|
    ensures i < |outcomes| && outcomes[i].Fetched?
    ensures Downloaded(Gathered(outcomes))[k] == SegmentPath(i)
  {
    i := FilterMapOrigin(Gathered(outcomes), PathIfTruthy, k);
  }

  /** No file is kept twice. */
  lemma DownloadedDistinct(outcomes: seq<FetchOutcome>)
    ensures Distinct(Downloaded(Gathered(outcomes)))
  {
    var g := Gathered(outcomes);
    forall i, j | 0 <= i < j < |g| && PathIfTruthy(g[i]).Some? && PathIfTruthy(g[j]).Some?
      ensures PathIfTruthy(g[i]).value != PathIfTruthy(g[j]).value
    {
      SegmentPathInjective(i, j);
    }
    FilterMapDistinct(g, PathIfTruthy);
  }

  /** The segment files of the successful downloads. */
  function FetchedPaths(outcomes: seq<FetchOutcome>): set<string> {
    set i | 0 <= i < |outcomes| && outcomes[i].Fetched? :: SegmentPath(i)
  }

  /** The kept paths are exactly the files of the successful downloads. */
  lemma DownloadedPaths(outcomes: seq<FetchOutcome>)
    ensures (set p | p in Downloaded(Gathered(outcomes))) == FetchedPaths(outcomes)
  {
    var d := Downloaded(Gathered(outcomes));
    forall p | p in d
      ensures p in FetchedPaths(outcomes)
    {
      var k :| 0 <= k < |d| && d[k] == p;
      var i := DownloadedFrom(outcomes, k);
    }
    forall i | 0 <= i < |outcomes| && outcomes[i].Fetched?
      ensures SegmentPath(i) in d
    {
      DownloadedInOrder(outcomes, i);
    }
  }

  /** The bytes of the files at `paths`, one after another. */
  function Concat(files: Files, paths: seq<string>): Bytes
    requires forall p :: p in paths ==> p in files
  {
    if paths == [] then []
    else Concat(files, paths[..|paths| - 1]) + files[paths[|paths| - 1]]
  }

  /** The sum of the sizes of the files at `paths`. */
  function TotalSize(files: Files, paths: seq<string>): nat
    requires forall p :: p in paths ==> p in files
  {
    if paths == [] then 0
    else TotalSize(files, paths[..|paths| - 1]) + |files[paths[|paths| - 1]]|
  }

  lemma {:induction false} ConcatSize(files: Files, paths: seq<string>)
    requires forall p :: p in paths ==> p in files
    ensures |Concat(files, paths)| == TotalSize(files, paths)
  {
    if paths != [] {
      ConcatSize(files, paths[..|paths| - 1]);
    }
  }

  /** Concatenating two lists of files is concatenating their concatenations. */
  lemma {:induction false} ConcatAppend(files: Files, a: seq<string>, b: seq<string>)
    requires forall p :: p in a + b ==> p in files
    ensures Concat(files, a + b) == Concat(files, a) + Concat(files, b)
  {
    if b == [] {
      assert a + b == a;
    } else {
      var n := |b| - 1;
      assert (a + b)[..|a + b| - 1] == a + b[..n];
      ConcatAppend(files, a, b[..n]);
    }
  }

  /**
   * The loop that copies every kept segment file, in list order, to the end
   * of the combined file (`shutil.copyfileobj` into a file opened with "wb").
   * Reading a file demands that it exists.
   */
  method Assemble(files: Files, paths: seq<string>) returns (combined: Bytes)
    requires forall p :: p in paths ==> p in files
    ensures combined == Concat(files, paths)
    ensures |combined| == TotalSize(files, paths)
  {
    combined := [];
    for i := 0 to |paths|
      invariant combined == Concat(files, paths[..i])
    {
      assert paths[..i + 1][..i] == paths[..i];
      combined := combined + files[paths[i]];
    }
    assert paths[..|paths|] == paths;
    ConcatSize(files, paths);
  }

  /** The bodies of the successful downloads, in index order (independent of files and paths). */
  function FetchedBytes(outcomes: seq<FetchOutcome>): Bytes {
    if outcomes == [] then []
    else
      var last := outcomes[|outcomes| - 1];
      FetchedBytes(outcomes[..|outcomes| - 1]) + (if last.Fetched? then last.body else [])
  }

  lemma {:induction false} AssembledPrefix(files: Files, outcomes: seq<FetchOutcome>, n: nat)
    requires n <= |outcomes|
    ensures forall p :: p in Downloaded(Gathered(outcomes)[..n]) ==> p in AfterFetch(files, outcomes)
    ensures Concat(AfterFetch(files, outcomes), Downloaded(Gathered(outcomes)[..n])) == FetchedBytes(outcomes[..n])
  {
    var g := Gathered(outcomes);
    var stored := AfterFetch(files, outcomes);
    if n > 0 {
      var m := n - 1;
      AssembledPrefix(files, outcomes, m);
      FilterMapPrefix(g, PathIfTruthy, m);
      assert outcomes[..n][..m] == outcomes[..m];
      var before := Downloaded(g[..m]);
      if outcomes[m].Fetched? {
        StoredSegment(files, outcomes, m);
        assert Downloaded(g[..n]) == before + [SegmentPath(m)];
        assert (before + [SegmentPath(m)])[..|before|] == before;
      } else {
        assert Downloaded(g[..n]) == before;
      }
    }
  }

  /**
   * The combined file is exactly the bodies of the successful downloads, in
   * index order: failed segments are silently left out.
   */
  lemma AssembledDownloads(files: Files, outcomes: seq<FetchOutcome>)
    ensures forall p :: p in Downloaded(Gathered(outcomes)) ==> p in AfterFetch(files, outcomes)
    ensures Concat(AfterFetch(files, outcomes), Downloaded(Gathered(outcomes))) == FetchedBytes(outcomes)
  {
    AssembledPrefix(files, outcomes, |outcomes|);
    assert Gathered(outcomes)[..|outcomes|] == Gathered(outcomes);
    assert outcomes[..|outcomes|] == outcomes;
  }

  lemma FetchedBytesStep(outcomes: seq<FetchOutcome>, n: nat)
    requires n < |outcomes|
    ensures FetchedBytes(outcomes[..n + 1]) == FetchedBytes(outcomes[..n]) + (if outcomes[n].Fetched? then outcomes[n].body else [])
  {
    assert outcomes[..n + 1][..n] == outcomes[..n];
  }

  /** Three segments "AAA", "BBB", "CCC" assemble to "AAABBBCCC". */
  lemma AssemblyExample(files: Files, outcomes: seq<FetchOutcome>)
    requires outcomes == [Fetched([65, 65, 65]), Fetched([66, 66, 66]), Fetched([67, 67, 67])]
    ensures forall p :: p in Downloaded(Gathered(outcomes)) ==> p in AfterFetch(files, outcomes)
    ensures Concat(AfterFetch(files, outcomes), Downloaded(Gathered(outcomes))) == [65, 65, 65, 66, 66, 66, 67, 67, 67]
  {
    AssembledDownloads(files, outcomes);
    FetchedBytesStep(outcomes, 0);
    FetchedBytesStep(outcomes, 1);
    FetchedBytesStep(outcomes, 2);
    assert outcomes[..0] == [] && outcomes[..3] == outcomes;
  }

  /** Of two segments where the second fails (an HTTP 404), only the first one's bytes remain. */
  lemma FailedSegmentExample(files: Files, outcomes: seq<FetchOutcome>)
    requires outcomes == [Fetched([65, 65, 65]), FetchFailed(None)]
    ensures |Downloaded(Gathered(outcomes))| == 1
    ensures forall p :: p in Downloaded(Gathered(outcomes)) ==> p in AfterFetch(files, outcomes)
    ensures Concat(AfterFetch(files, outcomes), Downloaded(Gathered(outcomes))) == [65, 65, 65]
  {
    DownloadedCount(outcomes);
    AssembledDownloads(files, outcomes);
    FetchedBytesStep(outcomes, 0);
    FetchedBytesStep(outcomes, 1);
    assert outcomes[..0] == [] && outcomes[..2] == outcomes;
  }

  /**
   * The cleanup loop, `os.remove` on each path in turn. Removing demands
   * that the file exists, so a path may not repeat.
   */
  method RemoveFiles(files: Files, paths: seq<string>) returns (remaining: Files)
    requires Distinct(paths)
    requires forall p :: p in paths ==> p in files
    ensures remaining == files - (set p | p in paths)
  {
    remaining := files;
    for i := 0 to |paths|
      invariant remaining == files - (set p | p in paths[..i])
    {
      assert paths[i] !in paths[..i];
      assert paths[i] in remaining;
      assert paths[..i + 1] == paths[..i] + [paths[i]];
      remaining := remaining - {paths[i]};
    }
    assert paths[..|paths|] == paths;
  }
}
