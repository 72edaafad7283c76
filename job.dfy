/**
 * The `POST /` handler: from the decoded request to the progress events it
 * sends and the response it returns. Every external step (the manifest
 * request, each segment request, ffmpeg, the S3 upload and the presigned
 * link) is an outcome given in `Environment`; the working folder is the
 * `Files` map of the segment stage.
 */
module Job {
  import opened Common
  import opened Text
  import opened Manifest
  import opened Segments

  /** `request.token.split(".")[1]`: `None` where indexing raises, i.e. the token has no `.`. */
  function RoomName(token: string): (room: Option<string>)
    ensures room.Some? <==> '.' in token
    ensures room.Some? ==> '.' !in room.value
  {
    var fields := Split(token, '.');
    if |fields| < 2 then None else Some(fields[1])
  }

  /**
   * The room is the token's second `.`-separated field: it exists exactly
   * when the token has a `.`, has no `.` itself, starts right after the
   * first `.` and runs to the next `.` or to the end.
   */
  lemma RoomNameIsSecondField(token: string)
    ensures RoomName(token).Some? <==> '.' in token
    ensures RoomName(token).Some? ==>
              var room := RoomName(token).value;
              var start := |Split(token, '.')[0]| + 1;
              && '.' !in token[..start - 1] && token[start - 1] == '.'
              && '.' !in room
              && start + |room| <= |token|
              && token[start..start + |room|] == room
              && (start + |room| == |token| || token[start + |room|] == '.')
  {
    if '.' in token {
      SecondField(token, '.');
    }
  }

  /** A JWT-shaped token names the room after its header. */
  lemma RoomNameExample(token: string)
    requires token == "hdr.pay.sig"
    ensures RoomName(token) == Some("pay")
  {
    SplitJoin(["hdr", "pay", "sig"], '.');
    assert JoinFields(["hdr", "pay", "sig"], '.') == token;
  }

  /** One progress message, sent as `{"message": ..., "progress": ...}`. */
  datatype Event = Event(message: string, progress: int)

  /** Every progress message the handler sends, in the order it sends them. */
  const Checkpoints: seq<Event> := [
    Event("We Recive your request ...", 10),
    Event("Reading M3U8 URL ...", 20),
    Event("Downloading Your File on server ...", 30),
    Event("Concatenate all downloaded segments into a single file", 40),
    Event("Convert the file to .mp4 format", 50),
    Event("Convert the file to .mp4 format", 60),
    Event("Convert the file to .mp4 format", 70),
    Event("Done", 100)
  ]

  /** Progress only goes up, stays within 0..100, and the last message is "Done" at 100. */
  lemma CheckpointsIncrease()
    ensures forall i, j :: 0 <= i < j < |Checkpoints| ==> Checkpoints[i].progress < Checkpoints[j].progress
    ensures forall i :: 0 <= i < |Checkpoints| ==> 0 <= Checkpoints[i].progress <= 100
    ensures Checkpoints[|Checkpoints| - 1] == Event("Done", 100)
  {
  }

  /** Sending the next progress message: the `k`-th, after the first `k`. */
  method Send(events: seq<Event>, k: nat) returns (sent: seq<Event>)
    requires k < |Checkpoints| && events == Checkpoints[..k]
    ensures sent == Checkpoints[..k + 1]
  {
    sent := events + [Checkpoints[k]];
  }

  /** The step whose exception ended the job inside the `try`. */
  datatype Stage = ManifestFetch | Conversion | Upload

  datatype Response =
      /** `{"status", "presigned_url", "file_size_mb"}`; the size is kept in bytes. */
    | Uploaded(status: string, presignedUrl: string, sizeBytes: nat)
      /** `{"status"}` when no presigned URL came back. */
    | UploadedWithoutLink(status: string)
      /** `HTTPException(500, "Failed to process m3u8 file: ...")`. */
    | ProcessingFailed(code: int, stage: Stage)
      /** An exception raised before the `try`, which the framework answers on its own. */
    | Crashed

  const SuccessStatus := "File uploaded successfully"
  const NoLinkStatus := "File uploaded successfully, but failed to generate presigned URL"

  /** How each external step turns out. */
  datatype Environment = Environment(
    manifest: Option<string>,                // the manifest text; None if the request or its status failed
    join: (string, string) -> string,        // `urljoin`
    fetch: (nat, string) -> FetchOutcome,    // segment `i` at a URL
    convert: Bytes -> Option<Bytes>,         // ffmpeg's stream copy to mp4; None on a non-zero exit
    uploadSucceeds: bool,                    // `upload_file`
    presigned: Option<string>)               // `generate_presigned_url`

  /** The segment URLs of the manifest at `url`, resolved against its base URL. */
  function JobSegmentUrls(env: Environment, url: string, content: string): seq<string> {
    SegmentUrls(content, BaseUrl(url), env.join)
  }

  /** How each segment's request ends. */
  function JobOutcomes(env: Environment, url: string, content: string): seq<FetchOutcome> {
    var urls := JobSegmentUrls(env, url, content);
    seq(|urls|, i requires 0 <= i < |urls| => env.fetch(i, urls[i]))
  }

  /** The combined stream: the successful segments' bodies in manifest order. */
  function CombinedStream(env: Environment, url: string, content: string): Bytes {
    FetchedBytes(JobOutcomes(env, url, content))
  }

  /** The folder once the segments are downloaded and the combined stream is written. */
  function Assembled(env: Environment, url: string, content: string, files: Files): Files {
    AfterFetch(files, JobOutcomes(env, url, content))[CombinedPath := CombinedStream(env, url, content)]
  }

  /** `if presigned_url`: a URL that is present and not empty. */
  predicate HasLink(presigned: Option<string>) {
    presigned.Some? && presigned.value != ""
  }

  /** The files the job removes after a successful upload. */
  function Temporaries(outcomes: seq<FetchOutcome>): set<string> {
    FetchedPaths(outcomes) + {CombinedPath, Mp4Path}
  }

  /**
   * Lines 154-157: remove every kept segment file, then the combined stream,
   * then the video. Each of them exists and none is listed twice, so no
   * `os.remove` raises.
   */
  method CleanUp(files: Files, outcomes: seq<FetchOutcome>, downloaded: seq<string>) returns (after: Files)
    requires downloaded == Downloaded(Gathered(outcomes))
    requires forall i :: 0 <= i < |outcomes| && outcomes[i].Fetched? ==> SegmentPath(i) in files
    requires CombinedPath in files && Mp4Path in files
    ensures after == files - Temporaries(outcomes)
  {
    DownloadedDistinct(outcomes);
    DownloadedPaths(outcomes);
    forall p | p in downloaded
      ensures p in files && p != CombinedPath && p != Mp4Path
    {
      var k :| 0 <= k < |downloaded| && downloaded[k] == p;
      var i := DownloadedFrom(outcomes, k);
      SegmentPathIsNotOutput(i);
    }
    after := RemoveFiles(files, downloaded);
    after := RemoveFiles(after, [CombinedPath]);
    after := RemoveFiles(after, [Mp4Path]);
  }

  /**
   * A job that fails after the manifest was read removes nothing: every file
   * of the folder is still there, the combined stream among the new ones.
   */
  lemma FailureRemovesNothing(env: Environment, url: string, content: string, files: Files)
    ensures forall p :: p in files ==> p in Assembled(env, url, content, files)
    ensures CombinedPath in Assembled(env, url, content, files)
  {
    FetchKeepsFiles(files, JobOutcomes(env, url, content));
  }

  /** The folder after a successful job, from the folder once the video was written. */
  function AfterSuccess(files: Files, outcomes: seq<FetchOutcome>, ts: Bytes, mp4: Bytes): Files {
    AfterFetch(files, outcomes)[CombinedPath := ts][Mp4Path := mp4] - Temporaries(outcomes)
  }

  /**
   * After a successful upload the folder holds neither output nor any kept
   * segment, and every file that is not one of those temporaries is still there.
   */
  lemma SuccessRemovesOnlyTemporaries(files: Files, outcomes: seq<FetchOutcome>, ts: Bytes, mp4: Bytes)
    ensures CombinedPath !in AfterSuccess(files, outcomes, ts, mp4)
    ensures Mp4Path !in AfterSuccess(files, outcomes, ts, mp4)
    ensures forall i :: 0 <= i < |outcomes| && outcomes[i].Fetched? ==> SegmentPath(i) !in AfterSuccess(files, outcomes, ts, mp4)
    ensures forall p :: p in files && p !in Temporaries(outcomes) ==> p in AfterSuccess(files, outcomes, ts, mp4)
  {
    FetchKeepsFiles(files, outcomes);
  }

  /** A segment whose download failed part-way is left behind, bytes and all. */
  lemma SuccessLeavesPartialSegments(files: Files, outcomes: seq<FetchOutcome>, ts: Bytes, mp4: Bytes, i: nat)
    requires i < |outcomes| && outcomes[i].FetchFailed? && outcomes[i].written.Some?
    ensures SegmentPath(i) in AfterSuccess(files, outcomes, ts, mp4)
    ensures AfterSuccess(files, outcomes, ts, mp4)[SegmentPath(i)] == outcomes[i].written.value
  {
    PartialSegmentLeft(files, outcomes, i);
    SegmentPathIsNotOutput(i);
    forall j | 0 <= j < |outcomes| && outcomes[j].Fetched?
      ensures SegmentPath(i) != SegmentPath(j)
    {
      SegmentPathInjective(i, j);
    }
  }

  /**
   * Lines 122-139: resolve the segment URLs, download each segment to its
   * own file, keep the paths of those that succeeded and write their bytes,
   * in manifest order, to the combined file.
   */
  method FetchAndCombine(env: Environment, url: string, content: string, files: Files)
    returns (outcomes: seq<FetchOutcome>, downloaded: seq<string>, ts: Bytes, after: Files)
    ensures outcomes == JobOutcomes(env, url, content)
    ensures downloaded == Downloaded(Gathered(outcomes))
    ensures ts == CombinedStream(env, url, content)
    ensures after == Assembled(env, url, content, files)
    ensures forall i :: 0 <= i < |outcomes| && outcomes[i].Fetched? ==> SegmentPath(i) in after
  {
    var urls := SegmentUrls(content, BaseUrl(url), env.join);
    outcomes := seq(|urls|, i requires 0 <= i < |urls| => env.fetch(i, urls[i]));
    var results, stored := FetchAll(files, outcomes);
    downloaded := Downloaded(results);
    AssembledDownloads(files, outcomes);
    ts := Assemble(stored, downloaded);
    after := stored[CombinedPath := ts];
    forall i | 0 <= i < |outcomes| && outcomes[i].Fetched?
      ensures SegmentPath(i) in after
    {
      StoredSegment(files, outcomes, i);
    }
  }

  /**
   * Lines 147-162, once the video exists: upload it, measure it, ask for a
   * link, remove the temporaries and answer. `folder` holds the video at
   * `Mp4Path`, the combined stream and every kept segment.
   */
  method Publish(env: Environment, outcomes: seq<FetchOutcome>, downloaded: seq<string>,
                 folder: Files, mp4: Bytes, events0: seq<Event>)
    returns (events: seq<Event>, response: Response, after: Files)
    requires events0 == Checkpoints[..6]
    requires downloaded == Downloaded(Gathered(outcomes))
    requires forall i :: 0 <= i < |outcomes| && outcomes[i].Fetched? ==> SegmentPath(i) in folder
    requires CombinedPath in folder && Mp4Path in folder && folder[Mp4Path] == mp4
    ensures !env.uploadSucceeds ==>
              events == Checkpoints[..6] && response == ProcessingFailed(500, Upload) && after == folder
    ensures env.uploadSucceeds ==>
              && events == Checkpoints
              && response == (if HasLink(env.presigned)
                              then Uploaded(SuccessStatus, env.presigned.value, |mp4|)
                              else UploadedWithoutLink(NoLinkStatus))
              && after == folder - Temporaries(outcomes)
  {
    events, after := events0, folder;
    if !env.uploadSucceeds {
      response := ProcessingFailed(500, Upload);
      return;
    }
    var size := |after[Mp4Path]|;
    // Clean up.
    events := Send(events, 6);
    after := CleanUp(after, outcomes, downloaded);
    events := Send(events, 7);
    if HasLink(env.presigned) {
      response := Uploaded(SuccessStatus, env.presigned.value, size);
    } else {
      response := UploadedWithoutLink(NoLinkStatus);
    }
  }

  /**
   * Lines 119-162, once the manifest has been read and its event sent:
   * the segments, the combined stream, ffmpeg, the upload and the answer.
   */
  method Process(env: Environment, url: string, content: string, files: Files, events0: seq<Event>)
    returns (events: seq<Event>, response: Response, after: Files)
    requires events0 == Checkpoints[..1]
    ensures env.convert(CombinedStream(env, url, content)).None? ==>
              && events == Checkpoints[..5] && response == ProcessingFailed(500, Conversion)
              && after == Assembled(env, url, content, files)
    ensures var mp4 := env.convert(CombinedStream(env, url, content));
            mp4.Some? && !env.uploadSucceeds ==>
              && events == Checkpoints[..6] && response == ProcessingFailed(500, Upload)
              && after == Assembled(env, url, content, files)[Mp4Path := mp4.value]
    ensures var mp4 := env.convert(CombinedStream(env, url, content));
            mp4.Some? && env.uploadSucceeds ==>
              && events == Checkpoints
              && response == (if HasLink(env.presigned)
                              then Uploaded(SuccessStatus, env.presigned.value, |mp4.value|)
                              else UploadedWithoutLink(NoLinkStatus))
              && after == AfterSuccess(files, JobOutcomes(env, url, content), CombinedStream(env, url, content), mp4.value)
  {
    events := events0;
    // Step 2: the segment URLs and their target files.
    events := Send(events, 1);
    // Steps 3 and 4: download everything, drop the failures, concatenate.
    // The model takes these steps never to raise, so their two events are sent together.
    events := Send(events, 2);
    events := Send(events, 3);
    var outcomes, downloaded, ts;
    outcomes, downloaded, ts, after := FetchAndCombine(env, url, content, files);
    // Step 5: convert.
    events := Send(events, 4);
    var mp4 := env.convert(ts);
    if mp4.None? {
      response := ProcessingFailed(500, Conversion);
      return;
    }
    after := after[Mp4Path := mp4.value];
    // Step 6: upload.
    events := Send(events, 5);
    events, response, after := Publish(env, outcomes, downloaded, after, mp4.value, events);
  }

  /**
   * `download_and_upload_m3u8` after the token has been decoded. Returns the
   * progress events it sends (to the room `RoomName(token)`), its response
   * and the working folder afterwards.
   */
  method DownloadAndUpload(env: Environment, url: string, token: string, files: Files)
    returns (events: seq<Event>, response: Response, after: Files)
    ensures events <= Checkpoints
    ensures response.ProcessingFailed? ==> response.code == 500
    ensures RoomName(token).None? ==> events == [] && response == Crashed && after == files
    ensures RoomName(token).Some? && env.manifest.None? ==>
              events == Checkpoints[..1] && response == ProcessingFailed(500, ManifestFetch) && after == files
    ensures RoomName(token).Some? && env.manifest.Some? ==>
              var content := env.manifest.value;
              env.convert(CombinedStream(env, url, content)).None? ==>
                && events == Checkpoints[..5] && response == ProcessingFailed(500, Conversion)
                && after == Assembled(env, url, content, files)
    ensures RoomName(token).Some? && env.manifest.Some? ==>
              var content := env.manifest.value;
              var mp4 := env.convert(CombinedStream(env, url, content));
              mp4.Some? && !env.uploadSucceeds ==>
                && events == Checkpoints[..6] && response == ProcessingFailed(500, Upload)
                && after == Assembled(env, url, content, files)[Mp4Path := mp4.value]
    ensures RoomName(token).Some? && env.manifest.Some? ==>
              var content := env.manifest.value;
              var mp4 := env.convert(CombinedStream(env, url, content));
              mp4.Some? && env.uploadSucceeds ==>
                && events == Checkpoints
                && response == (if HasLink(env.presigned)
                                then Uploaded(SuccessStatus, env.presigned.value, |mp4.value|)
                                else UploadedWithoutLink(NoLinkStatus))
                && after == AfterSuccess(files, JobOutcomes(env, url, content), CombinedStream(env, url, content), mp4.value)
  {
    events, after := [], files;
    var room := RoomName(token);
    if room.None? {
      response := Crashed;
      return;
    }
    // Step 1: the manifest.
    events := Send(events, 0);
    if env.manifest.None? {
      response := ProcessingFailed(500, ManifestFetch);
      return;
    }
    events, response, after := Process(env, url, env.manifest.value, files, events);
  }
}
