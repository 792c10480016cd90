# YouTube camera video processor — verified model of its core

The application registers YouTube videos and turns each one into stored
still frames with a simple motion count. This project models and proves
properties of the parts of it that compute:

- **YouTube URL handling** (`youtube.dfy`, module `YouTube`): `extractVideoId`
  and `isValidYouTubeUrl`. They are stated with JavaScript's semantics for the
  two regular expressions: leftmost match, alternatives tried in order, a
  greedy `+`, and `^…$` without the `m` flag.
- **Registration** (`registration.dfy`, module `Registration`): the `POST`
  handler of the videos collection. Its early returns are the pure function
  `Validate`. The `camera_videos` table is the class `VideoCatalog`, whose
  method `Post` runs the duplicate check (409), the metadata fetch (a failure
  gives 500) and the insert of one `pending` row (201).
- **Frame demultiplexing** (`demux.dfy`, module `FrameDemux`): the closure
  state of `extractFramesFromVideo` is the class `FrameDemuxer`. Its `data`
  and `end` handlers are the methods `OnData` and `OnEnd`, and
  `ExtractFrames` feeds them a chunk sequence. Both are proved against a
  reference definition, `FrameBodies`: each chunk in which the PNG signature
  is found opens a frame, starting at that signature.
- **Motion detection** (`motion.dfy`, module `Motion`): the pixel loop of
  `detectMotion`, over the greyscale rasters the image library produces.
- **Processing** (`pipeline.dfy`, module `Pipeline`): the loop of
  `processVideoFrames`, with object storage as the class `ArtifactStore`
  (`uploadToR2`).
- **Display helpers** (`video_list.dfy`, module `VideoList`): `formatDuration`
  is proved against a parser of its output. `getStatusBadge` is modelled as
  written and also corrected (see Findings).
- `common.dfy` (module `Common`) holds `Option`, `Result` and the decimal
  rendering of natural numbers with its round trip. The frame keys and the
  duration strings are built from that rendering.

Effects outside the program are parameters of the model:
- `fetchInfo` stands for the YouTube metadata fetch;
- `optimize` stands for JPEG re-encoding;
- `decode` stands for the resize-to-greyscale decoding;
- the chunk sequence stands for the encoder's output stream.

## Model

| member | source | states |
|---|---|---|
| YouTube.FirstAlternative | lib/youtube/utils.ts:8 | the alternative chosen at a start position is the first of the three prefixes, in pattern order, that matches there with an id character after it |
| YouTube.RunEnd | lib/youtube/utils.ts:8 | the capture `[^&\n?#]+` is greedy: every character of the run is allowed, and the run stops at the end of the input or at a disallowed character |
| YouTube.FindUrlMatch | lib/youtube/utils.ts:12-16 | the URL pattern is found at the leftmost position where it matches; no earlier position matches |
| YouTube.Capture | lib/youtube/utils.ts:15 | capture group 1 is non-empty and consists of allowed characters only |
| YouTube.ExtractVideoId | lib/youtube/utils.ts:6-20 | every id returned is non-empty and free of `&`, `?`, `#` and newline; without a URL match it is the whole input, an 11-character id |
| YouTube.IsValidYouTubeUrl | lib/youtube/utils.ts:25-27 | an input is accepted exactly when some prefix in it is followed by an allowed character, or when the whole input is an 11-character id |
| YouTube.UrlIdIsMaximalRun | lib/youtube/utils.ts:12-16 | the id from a URL is the maximal non-empty run of allowed characters right after the leftmost matching prefix |
| YouTube.IdIsSubstring | lib/youtube/utils.ts:6-20 | every extracted id occurs in the input |
| YouTube.PatternsExclusive | lib/youtube/utils.ts:7-10 | an input matching the bare-id pattern never matches the URL pattern, so the order of the two patterns decides nothing |
| YouTube.LeftmostIsFound | lib/youtube/utils.ts:12-16 | conversely, the leftmost position where the URL pattern matches is the one found |
| YouTube.NoMatchWithoutY | lib/youtube/utils.ts:8 | a match can start only at a `y`, since every prefix begins with one |
| YouTube.ShortLinkOfOneCharacter | lib/youtube/utils.ts:8 | `youtu.be/x` yields the one-character id `x`: the URL pattern puts no length limit on the id |
| YouTube.WatchLinkInsideText | lib/youtube/utils.ts:8 | a watch link inside other text is found, and its id stops at `&` |
| YouTube.EmptyIdRejected | lib/youtube/utils.ts:8 | example: `youtu.be/?v` is rejected, because the prefix is followed directly by `?` and `+` needs one allowed character |
| YouTube.BareIdAnchored | lib/youtube/utils.ts:9 | the bare-id pattern must match the whole input: a trailing newline defeats it, and the 11 characters alone are returned as they are |
| Registration.Validate | app/api/videos/route.ts:32-55 | the early returns: a missing, non-string or empty URL gives 400 "YouTube URL is required"; a non-empty invalid one gives 400 "Invalid YouTube URL"; a body the handler cannot read gives 500 with the error's message; on success the id is the one extracted from the URL |
| Registration.ValidateAccepts | app/api/videos/route.ts:35-47 | a body passes exactly when it carries a string URL that is valid |
| Registration.ExtractFailureUnreachable | app/api/videos/route.ts:49-55 | the "Failed to extract video ID" response is never produced |
| Registration.FindByVideoId | app/api/videos/route.ts:58-62 | the lookup finds a row with the given `youtube_video_id`, or reports that no row has it |
| Registration.InsertKeepsUnique | app/api/videos/route.ts:58-91 | inserting only after the duplicate check keeps video ids and row ids unique |
| Registration.InsertedIsFound | app/api/videos/route.ts:58-69 | once a video is inserted, the duplicate check finds its row |
| Registration.VideoCatalog.constructor | lib/types/database.ts:4-8 | the table starts empty and satisfies the uniqueness invariant |
| Registration.VideoCatalog.Post | app/api/videos/route.ts:30-99 | each response of the cascade: validation errors and 409 with the existing row's id leave the table unchanged; a fetch failure gives 500 "Failed to fetch video info: …"; otherwise exactly one `pending` row, built from the URL, the id and the metadata, is appended and returned with 201; uniqueness is kept |
| VideoList.SplitSeconds | components/VideoList.tsx:67-69 | hours, minutes and seconds recompose the input, with minutes and seconds below 60 |
| VideoList.Pad2 | components/VideoList.tsx:72 | `padStart(2, '0')` gives digits only, exactly two for values below 100 |
| VideoList.FormatDuration | components/VideoList.tsx:66-75 | reading the formatted duration back gives the number of seconds |
| VideoList.FormatDurationShape | components/VideoList.tsx:71-74 | below an hour the output is `M:SS`; from an hour on it is `H:MM:SS` with no leading zero in the hours; the seconds field always has two digits |
| VideoList.StatusBadgeAsWritten | components/VideoList.tsx:85 | as written, a status that names an inherited property shows no label and no colour; every other status shows the corrected style |
| VideoList.StatusBadge | components/VideoList.tsx:77-85 | corrected lookup: `pending`, `processing`, `completed` and `failed` each give their own style, and any other status gives the `pending` style |
| VideoList.StatusLabelsDistinct | components/VideoList.tsx:78-83 | each of the four statuses of the `status` column has its own entry, and the four labels differ |
| VideoList.InheritedNameLosesLabel | components/VideoList.tsx:85 | as written, the status `toString` shows no label; the corrected lookup shows the `pending` label |
| FrameDemux.IndexFrom | lib/video/processor.ts:46 | `indexOf` gives the leftmost occurrence of the signature, or -1 when it occurs nowhere |
| FrameDemux.SignatureSuffix | lib/video/processor.ts:62-68 | the part of a chunk that is kept begins with the PNG signature |
| FrameDemux.FrameBodies | lib/video/processor.ts:44-91 | reference definition of the frames of a chunk sequence; every frame begins with the PNG signature |
| FrameDemux.FrameDemuxer.constructor | lib/video/processor.ts:15-27 | no frames, counter 0, no buffers, no frame open |
| FrameDemux.FrameDemuxer.OnData | lib/video/processor.ts:44-73 | a chunk with a signature pushes the open frame (if any) under the next number and timestamp, then opens a frame from the signature on; a chunk without one is appended to the open frame or dropped; the counter always equals the number of frames |
| FrameDemux.FrameDemuxer.OnEnd | lib/video/processor.ts:75-91 | the open frame is flushed; no frames gives the rejection "No frames extracted from video", otherwise all frames are resolved |
| FrameDemux.ExtractFrames | lib/video/processor.ts:44-91 | the handlers together give the reference frames numbered in order, and they reject exactly when no chunk holds the signature |
| FrameDemux.DataStep | lib/video/processor.ts:44-73 | one `data` event turns a state that shows some progress into one that shows that progress after the chunk |
| FrameDemux.ReceiveOpening | lib/video/processor.ts:48-68 | a signature chunk closes the frame open until then and opens one holding its signature suffix |
| FrameDemux.ReceivePlain | lib/video/processor.ts:69-72 | a chunk without a signature extends the open frame and closes nothing |
| FrameDemux.DemuxedIsReference | lib/video/processor.ts:44-73 | feeding the chunks one at a time gives exactly the closed frames and the open frame of the reference definition |
| FrameDemux.AllFramesAreReference | lib/video/processor.ts:75-84 | flushing at the end gives the reference frames |
| FrameDemux.NumberedFrames | lib/video/processor.ts:53-57 | there is one frame per signature chunk; frame `k` has number `k` and timestamp `k * interval`, and it begins with the signature |
| FrameDemux.FrameCount | lib/video/processor.ts:46-68 | a chunk holding several signatures still opens only one frame: the frames are as many as the chunks in which the signature is found |
| FrameDemux.LeadingChunksDiscarded | lib/video/processor.ts:69-72 | chunks without a signature that come before any frame is open change nothing |
| FrameDemux.ShortChunkHasNoSignature | lib/video/processor.ts:46 | a chunk shorter than eight bytes never holds the signature |
| FrameDemux.SplitSignatureMissed | lib/video/processor.ts:46-48 | a signature split across two chunks, at any of its seven inner positions, is not detected, and no frame results |
| FrameDemux.PrefixBytesLost | lib/video/processor.ts:64-65 | example: in the stream `[sig + [1]], [[2] + sig]` the byte 2 belongs to no frame, although a frame is open when it arrives |
| FrameDemux.FramesKeepOnly | lib/video/processor.ts:44-91 | the frames, concatenated, are exactly each signature chunk from its signature on and each later chunk without one: bytes ahead of a signature are lost |
| Motion.AbsDiff | lib/video/processor.ts:134 | the pixel difference is at most 255 and zero exactly for equal pixels |
| Motion.SumAbsDiff | lib/video/processor.ts:130-136 | the loop's total is between 0 and 255 per pixel |
| Motion.DetectMotion | lib/video/processor.ts:116-149 | a failed decode gives no motion with difference 0; otherwise the difference is the scaled mean of the loop's sum, lies in [0, 1], and motion is reported exactly when it exceeds the threshold |
| Motion.SumAbsDiffZero | lib/video/processor.ts:130-136 | the total is zero exactly when the rasters are equal |
| Motion.SumAbsDiffSymmetric | lib/video/processor.ts:130-136 | the total does not depend on which frame comes first |
| Motion.Difference | lib/video/processor.ts:138 | the score lies in [0, 1] and is 0 exactly for identical rasters |
| Motion.DifferenceSymmetric | lib/video/processor.ts:138 | the score is symmetric in the two frames |
| Motion.ThresholdOnSum | lib/video/processor.ts:138-139 | motion is reported exactly when the summed difference exceeds `threshold * 255 * pixelCount` |
| Motion.NoMotionForIdenticalFrames | lib/video/processor.ts:139 | identical frames never report motion at a non-negative threshold |
| Pipeline.ArtifactStore.Upload | lib/r2/client.ts:27-41 | a put stores the body and content type under the key, replacing what was there, and the upload is logged |
| Pipeline.FrameKeyRoundTrip | lib/video/processor.ts:170 | the frame number reads back from between the video's frames folder and `.jpg` in the key |
| Pipeline.FrameKeys | lib/video/processor.ts:170 | the first `n` frames are uploaded under `n` pairwise different keys, frame `i` under its own key |
| Pipeline.FrameKeyInjective | lib/video/processor.ts:170 | two frames of one video never share a storage key |
| Pipeline.FrameKeyDistinct | lib/video/processor.ts:170 | different frame numbers give different keys |
| Pipeline.OptimizedPrefix | lib/video/processor.ts:163-171 | the frames stored before the first re-encoding failure are exactly the ones that re-encode, and the next frame is the one that fails |
| Pipeline.StoredFrames | lib/video/processor.ts:163-171 | after `k` frames, each earlier frame is found under its key, re-encoded and typed `image/jpeg`; no later upload overwrites it |
| Pipeline.StoredOthers | lib/video/processor.ts:163-171 | storing frames leaves every other key of the bucket as it was |
| Pipeline.MotionCount | lib/video/processor.ts:174-181 | frame 0 is never compared, so fewer than `n` of the first `n` frames count as motion |
| Pipeline.StillVideoHasNoMotion | lib/video/processor.ts:174-181 | frames that decode to identical rasters count no motion |
| Pipeline.MotionCountNext | lib/video/processor.ts:174-181 | each later frame adds one exactly when it moved against its predecessor |
| Pipeline.ProcessVideoFrames | lib/video/processor.ts:154-188 | no frames gives the extraction error and touches nothing; otherwise the frames are uploaded in order under their keys until the first re-encoding failure, whose error is passed on; on success `frameCount` is the number of signature chunks and `motionDetectedFrames` counts the consecutive pairs that moved |

## Left out

- The video download and the encoder (ytdl, ffmpeg) are left out. Their output enters `ExtractFrames` as a chunk sequence. The `-frames:v 1000` cap and the stream `error` handlers (processor.ts:38-41, 93-96) belong to them and are not modelled.
- Image decoding and JPEG re-encoding (sharp) enter as the function parameters `decode` and `optimize`. `None` stands for a thrown error. A decoded frame is assumed to hold exactly 320x240 greyscale bytes, which is what the resize promises. So an empty or short raster, where the division in `detectMotion` would give NaN, is not modelled.
- Motion.DetectMotion: JavaScript numbers are doubles; the model computes the score and the timestamps `frameIndex * intervalSeconds` in exact reals, so rounding is not modelled.
- Pipeline.ArtifactStore.Upload: the bucket name, the client and network failures of `send` are not modelled; an upload always succeeds.
- `getYouTubeVideoInfo` (utils.ts:32-49) is a network call. It enters `Post` as `fetchInfo`, and its failure keeps the message prefix "Failed to fetch video info: ". The metadata fields it picks are not modelled.
- Registration.VideoCatalog.Post: row ids come from the database; here they are the decimal rendering of a counter. Database errors on the lookup or the insert are not modelled. Neither is the race between the duplicate check and the insert, since requests run one at a time. A body the handler cannot read ends in its 500 with the thrown error's message, which enters as a string (`Unparsable`): JSON that fails to parse, and also the JSON value `null`, whose destructuring throws a TypeError.
- VideoList.FormatDuration is modelled for whole non-negative seconds only; negative or fractional durations are not covered.
- The processing status transitions (the `process` route), the `GET` handlers and the React components other than the two helpers are not modelled.

## Findings

| source | as written | input that shows it | evidently intended | confidence | as-written member | corrected member |
|---|---|---|---|---|---|---|
| components/VideoList.tsx:85 | `statusMap[status] \|\| statusMap.pending` also finds properties inherited from `Object.prototype`; they are truthy, so the fallback is skipped and the badge shows `undefined` label and colour | status `"toString"` | any status that is not one of the four keys falls back to the `pending` badge | not executed | VideoList.InheritedNameLosesLabel | VideoList.StatusBadge |
