# m3u8 downloader server — a verified model of its core

The server behind this model has two entry points:

- **`POST /`** takes a signed token. It reads an HLS playlist (an `.m3u8` manifest) and
  resolves every segment line against the playlist's base URL. It downloads each
  segment into `segment_{i}.ts`, drops the downloads that failed and concatenates the
  rest into `combined_segments.ts`. It then has ffmpeg remux that file into
  `final_video.mp4`, uploads the video to S3, removes its temporary files and answers
  with a presigned link. While it works, it reports progress (10, 20, … 100) to a
  websocket room named after the token's second `.`-separated field.
- **`/ws/{room_name}`** is that progress room. A connection joins the room. Every text
  it sends is forwarded to the room's other connections. The room is deleted when its
  last connection leaves.

The model is split into six modules:

- `Common` holds `Option`, `Distinct`, and `FilterMap`. `FilterMap` is Python's
  filtered list comprehension `[g(x) for x in xs if c(x)]`. The module also states
  where each kept element lands in the output and where each output comes from.
- `Text` holds `str.split` with a one-character separator and its inverse
  `sep.join`, plus the decimal rendering of an index.
- `Manifest` holds the base URL and the segment-URL comprehension. `urljoin` is a
  function parameter.
- `Rooms` holds the room registry as a class with a `rooms` map and a log of every
  `send_text` made. Its methods are `Join`, `Receive` and `Disconnect`. The
  pure functions `Enter`, `Leave` and `Relay` specify them.
- `Segments` holds the working folder, a map from path to bytes. It covers
  `download_segment`, the gathered results, the `None` filter, the concatenation loop
  and the removal loop.
- `Job` holds the room name and the progress checkpoints. It also holds the handler
  itself as methods that return the events sent, the response and the folder
  afterwards.

Each external effect of the handler becomes a field of an `Environment` value:

- the manifest request;
- each segment request, as an outcome;
- ffmpeg;
- the S3 upload;
- the presigned URL.

For every environment, the handler's events, response and folder afterwards are stated
and proved. The two failures an environment cannot express, `urljoin` raising and a
local write raising, are listed under "## Left out".

## Model

| member | source | states |
|---|---|---|
| `Rooms.Enter` | app.py:25-27 | the room exists afterwards, and its list is the old list (or nothing) with the connection appended last; every other room is unchanged |
| `Rooms.EnterWellFormed` | app.py:25-27 | a connection that was in no room joins it; the registry stays well formed (no empty room, no connection twice, no connection in two rooms) |
| `Rooms.FirstIndex` | app.py:35 | the index `list.remove` acts on holds the element, and no earlier index does |
| `Rooms.RemoveFirst` | app.py:35 | `list.remove` is the list with its first occurrence of the element cut out, the rest in their order; a list without the element comes back unchanged |
| `Rooms.RemoveFirstKeeps` | app.py:35 | removal shortens a list holding the element by exactly one, loses no other element, adds none, and leaves a distinct list distinct and without the element |
| `Rooms.Leave` | app.py:35-37 | the room is kept only as a non-empty list, and (when the connection was in it) exactly when it held more than one connection; every other room is unchanged |
| `Rooms.LeaveWellFormed` | app.py:34-37 | after a disconnect the registry is well formed, the connection is in no room, the room survives exactly when another connection is still in it (never as an empty list), other rooms are untouched; a surviving room is the old list with the connection's occurrence cut out, order kept |
| `Rooms.LeaveUndoesEnter` | app.py:25-37 | disconnecting right after joining restores the registry exactly, deleting a room that the join created |
| `Rooms.Relay` | app.py:31-33 | no more sends than list entries, each carrying the text, to a listed connection other than the sender; for a list without duplicates no connection is sent to twice |
| `Rooms.RelayToOthersOnce` | app.py:30-33 | a received text goes to every other member of the room exactly once, never to the sender and never outside the room's list |
| `Rooms.RelayInOrder` | app.py:31-33 | sends follow the room's list order: member `i` is sent to at position `i` minus the sender's earlier occurrences |
| `Rooms.RelayStaysInRoom` | app.py:30-33 | no connection of another room receives a text relayed in this room |
| `Rooms.Registry.constructor` | app.py:20 | the registry starts empty and well formed, with nothing sent |
| `Rooms.Registry.Join` | app.py:22-27 | the connection is joined, the new map is `Enter` of the old one, nothing is sent, well-formedness is kept |
| `Rooms.Registry.Receive` | app.py:29-33 | the forwarding loop appends exactly `Relay` of the room's list to the log and leaves the rooms unchanged |
| `Rooms.Registry.Disconnect` | app.py:34-37 | the new map is `Leave` of the old one, the connection is in no room, nothing is sent, well-formedness is kept |
| `Manifest.BaseUrl` | app.py:121 | the base ends in `/`; with no `/` in the URL it is the URL plus `/`, otherwise it is the prefix of the URL up to its last `/` |
| `Manifest.SegmentUrls` | app.py:122 | at most one URL per line; a manifest of a single line yields `urljoin(base, line)` when that line is a segment line and nothing otherwise |
| `Manifest.SegmentUrlsCount` | app.py:122 | one URL per non-empty, non-`#` line of the manifest, none for the others |
| `Manifest.SegmentUrlsInOrder` | app.py:122 | the segment line at index `i` yields `urljoin(base, line)` at the position equal to the number of segment lines before it |
| `Manifest.SegmentUrlsFromLines` | app.py:122 | conversely, every URL is `urljoin(base, line)` for a segment line, at that line's position |
| `Manifest.SegmentUrlsExample` | app.py:122 | a tag line, a blank line and two segment lines give the two joined URLs, in order |
| `Text.Split` | app.py:107 | at least one field; no field contains the separator; the first field is the prefix up to the first separator; one field exactly when there is no separator |
| `Text.JoinSplit` | app.py:107 | joining the fields of a split gives back the string |
| `Text.SplitJoin` | app.py:107 | splitting a join of separator-free fields gives back the fields |
| `Text.SecondField` | app.py:107 | the second field of a split starts right after the first separator and runs to the next separator or the end |
| `Text.NatToString` | app.py:125 | the rendering is non-empty decimal digits denoting the number, without a leading zero for a positive number |
| `Text.NatToStringCanonical` | app.py:125 | one digit exactly below ten, and a rendering of two or more digits never starts with `0` (so `0` is `"0"`, never `"00"`) |
| `Text.NatToStringInjective` | app.py:125 | different indexes render differently |
| `Job.RoomName` | app.py:107 | a room name exists exactly when the token contains a `.`, and it never contains one |
| `Job.RoomNameIsSecondField` | app.py:107 | the room name exists exactly when the token has a `.`; it is the text between the first `.` and the next `.` (or the end) |
| `Job.RoomNameExample` | app.py:107 | a token `hdr.pay.sig` names the room `pay` |
| `Job.CheckpointsIncrease` | app.py:114-158 | progress strictly increases, stays within 0..100, and the last message is "Done" at 100 |
| `Job.Send` | app.py:114-158 | each send extends the events sent so far by the next checkpoint |
| `Segments.PathJoinShape` | app.py:101-102 | `os.path.join`: an absolute name is returned as is; a relative one ends the result and the directory begins it, with exactly one `/` between them, added only when the directory is non-empty and does not already end in one |
| `Segments.SegmentPath` | app.py:125 | a segment's file name is a non-empty path |
| `Segments.SegmentPathInjective` | app.py:124-125 | two segments never share a file |
| `Segments.SegmentPathIsNotOutput` | app.py:100-102 | no segment file is the combined stream or the video |
| `Segments.DownloadSegment` | app.py:62-71 | the result is the path exactly when the whole body was stored there, `None` exactly on failure; a body is stored in full; only the file at the path can change |
| `Segments.FetchAll` | app.py:123-131 | the gathered results are `Some(segment_i)` exactly for the successful downloads, in index order, and the folder is the one left by every download in turn |
| `Segments.StoredSegment` | app.py:62-69 | after the stage, each successful segment's file holds exactly its body |
| `Segments.FetchKeepsOtherFiles` | app.py:62-71 | files other than this job's segment files keep their presence and contents |
| `Segments.FetchKeepsFiles` | app.py:62-71 | the stage removes no file |
| `Segments.PartialSegmentLeft` | app.py:66-71 | a download that fails while streaming leaves its partial file with the bytes written so far |
| `Segments.Downloaded` | app.py:132 | the filter keeps at most one path per result, only non-empty paths that some result carried |
| `Segments.DownloadedCount` | app.py:131-132 | the filter keeps one path per successful download: the number of segments minus the failures |
| `Segments.DownloadedInOrder` | app.py:131-132 | successful segment `i` is kept at position `i` minus the failures before it |
| `Segments.DownloadedFrom` | app.py:131-132 | every kept path is the file of a successful download |
| `Segments.DownloadedDistinct` | app.py:124-132 | no path is kept twice |
| `Segments.DownloadedPaths` | app.py:131-132 | the kept paths are exactly the files of the successful downloads |
| `Segments.ConcatSize` | app.py:136-139 | the combined size is the sum of the segment files' sizes |
| `Segments.ConcatAppend` | app.py:136-139 | concatenation distributes over appending path lists |
| `Segments.Assemble` | app.py:136-139 | the copy loop produces exactly the files' bytes one after another, of the summed size |
| `Segments.AssembledDownloads` | app.py:124-139 | every kept path exists when read, and the combined stream is the successful bodies in manifest order, so failed segments are skipped |
| `Segments.AssemblyExample` | app.py:124-139 | segments "AAA", "BBB", "CCC" assemble to "AAABBBCCC" |
| `Segments.FailedSegmentExample` | app.py:124-139 | with the second of two segments failing, one path is kept and the stream is the first body |
| `Segments.RemoveFiles` | app.py:154-157 | removing distinct existing paths one by one leaves the folder minus exactly those paths |
| `Job.CleanUp` | app.py:154-157 | the cleanup never removes a missing file and leaves the folder minus the kept segments, the combined stream and the video |
| `Job.FailureRemovesNothing` | app.py:119-143 | when the job fails after reading the manifest, every file that was in the folder is still there, with the combined stream beside them |
| `Job.SuccessRemovesOnlyTemporaries` | app.py:152-157 | after a successful job, neither output nor any kept segment is left, and every other file is still there |
| `Job.SuccessLeavesPartialSegments` | app.py:66-71 | a segment whose download failed part-way survives the cleanup, holding its partial bytes |
| `Job.FetchAndCombine` | app.py:119-139 | the segment URLs' outcomes, the kept paths and the combined stream are those of the manifest, and the folder holds every successful segment and the combined file |
| `Job.Publish` | app.py:146-162 | an upload failure is a 500 after six events, with the folder unchanged; a success sends all eight events, answers with the link and the video's size when the link is truthy, i.e. present and non-empty (otherwise the no-link status), and removes exactly the temporaries |
| `Job.Process` | app.py:119-164 | a conversion failure is a 500 after five events, an upload failure a 500 after six, and a success all eight events; the folder is exactly what each path leaves behind |
| `Job.DownloadAndUpload` | app.py:90-164 | events are always a prefix of the checkpoints; a token without `.` crashes before any event; a manifest failure is a 500 after the first event with the folder untouched; every failure inside the `try` is code 500; the later outcomes are those of `Process` |

## Left out

- JWT decoding (app.py:43-50) and reading the claims (app.py:92-98) are left out. The
  model starts from the decoded manifest URL. An invalid token makes `decoded_data` be
  `False`, so indexing it crashes; that path is not modelled.
- The websocket client connection (app.py:110) and the FastAPI/websocket transport are
  left out. Sent events are returned as a sequence. A `send_text` that fails while
  forwarding (app.py:33) is not modelled.
- Concurrency is left out:
  - `asyncio.gather` runs the downloads concurrently. The model runs them in index
    order. They write pairwise distinct files (`SegmentPathInjective`), so the folder
    is the same.
  - Two requests sharing the fixed folder, and concurrent websocket handlers mutating
    `rooms`, are not modelled.
- Network I/O is not modelled byte by byte:
  - The manifest request is reduced to "text or failure".
  - Each segment request is reduced to a `FetchOutcome`. Its 8192-byte chunked
    streaming is not modelled; a failure after some chunks appears as the partial
    bytes written.
- ffmpeg is an abstract conversion returning bytes or failure. A failed run is assumed
  not to write `final_video.mp4`; whatever the folder held at that path stays.
- The S3 upload is a boolean outcome, and `generate_presigned_url` is an optional
  string. The S3 client itself is out of scope.
- `urljoin` (section 5.2 of RFC 3986) is a function parameter. Its resolution rules are
  not modelled.
- `str.splitlines` is modelled as a split on `\n` alone. `\r\n`, `\r` and the other
  Unicode line boundaries are not handled, and a trailing newline yields one extra
  empty line, which is never a segment line.
- Publish: reports the video's size in bytes. The source's `file_size_mb`, a
  floating-point division by 1048576 rounded to two places, is not modelled.
- DownloadAndUpload: urljoin and the local writes of steps 2-4 are taken never to raise.
  In the handler `urljoin` can raise `ValueError` (a 500 after two events), and opening
  or writing `combined_segments.ts` can raise `OSError` (a 500 after four events); no
  outcome of the model admits these.
- DownloadAndUpload: failures are identified by a `Stage` tag. The text of the
  exception (`str(e)` in the 500 detail) is not modelled.
- CleanUp: `os.remove` and `open` on a missing file would raise. The model demands
  existence as a precondition, and the pipeline proves it is always met.
- `os.makedirs` of the segment folder (app.py:105-106) is left out. The folder is
  taken to exist.
- The `GET /` greeting (app.py:86-88) is left out.
