/** `processVideoFrames`: extract the frames of a video stream, store each
    one (re-encoded) under a key derived from the video's database id and
    the frame number, and count the frames that show motion against their
    predecessor. The image library enters as two functions: `optimize`
    (re-encoding, `Failure` with the thrown error's message when it throws)
    and `decode` (the greyscale raster motion detection compares, `None`
    when it throws). Object storage is the
    `ArtifactStore` class below. */
module Pipeline {
  import opened Common
  import opened FrameDemux
  import opened Motion

  const JpegContentType: string := "image/jpeg"

  datatype StoredObject = StoredObject(body: seq<bv8>, contentType: string)

  /** The object storage bucket `uploadToR2` writes to: the objects by key,
      and every upload in the order it was made. */
  class ArtifactStore {
    var objects: map<string, StoredObject>
    var uploads: seq<string>

    constructor ()
      ensures objects == map[] && uploads == []
    {
      objects := map[];
      uploads := [];
    }

    /** A put replaces whatever was stored under `key`. */
    method Upload(key: string, body: seq<bv8>, contentType: string)
      modifies this
      ensures objects == old(objects)[key := StoredObject(body, contentType)]
      ensures uploads == old(uploads) + [key]
    {
      objects := objects[key := StoredObject(body, contentType)];
      uploads := uploads + [key];
    }
  }

  datatype ProcessSummary = ProcessSummary(frameCount: nat, motionDetectedFrames: nat)

  datatype ProcessError =
    | ExtractionFailed(message: string)
    | OptimizeFailed(message: string)

  const KeyPrefix: string := "videos/"
  const FramesFolder: string := "/frames/"
  const FrameExtension: string := ".jpg"

  /** `videos/{videoDbId}/frames/{frameNumber}.jpg` */
  function FrameKey(videoDbId: string, frameNumber: nat): string {
    KeyPrefix + videoDbId + FramesFolder + NatToString(frameNumber) + FrameExtension
  }

  /** The frame number a key of the video's frames folder names: the decimal
      number between the folder and the extension. */
  function FrameNumberOf(videoDbId: string, key: string): Option<nat> {
    var folder := KeyPrefix + videoDbId + FramesFolder;
    if |folder| + |FrameExtension| <= |key|
       && key[..|folder|] == folder
       && key[|key| - |FrameExtension|..] == FrameExtension
    then ParseNat(key[|folder|..|key| - |FrameExtension|])
    else None
  }

  /** The frame number reads back from the frame's key. */
  lemma FrameKeyRoundTrip(videoDbId: string, frameNumber: nat)
    ensures FrameNumberOf(videoDbId, FrameKey(videoDbId, frameNumber)) == Some(frameNumber)
  {
    var folder := KeyPrefix + videoDbId + FramesFolder;
    var digits := NatToString(frameNumber);
    NatToStringRoundTrip(frameNumber);
    var key := FrameKey(videoDbId, frameNumber);
    assert key == folder + digits + FrameExtension;
    assert key[..|folder|] == folder;
    assert key[|key| - |FrameExtension|..] == FrameExtension;
    assert key[|folder|..|key| - |FrameExtension|] == digits;
  }

  /** The keys of frames 0 .. n-1, in that order. */
  function FrameKeys(videoDbId: string, n: nat): (keys: seq<string>)
    ensures |keys| == n
    ensures forall i :: 0 <= i < n ==> keys[i] == FrameKey(videoDbId, i)
    ensures forall i, j :: 0 <= i < j < n ==> keys[i] != keys[j]
  {
    FrameKeysDistinct(videoDbId, n);
    seq(n, i requires 0 <= i => FrameKey(videoDbId, i))
  }

  /** Two frames of one video never share a key. */
  lemma FrameKeyInjective(videoDbId: string, m: nat, n: nat)
    requires FrameKey(videoDbId, m) == FrameKey(videoDbId, n)
    ensures m == n
  {
    FrameKeyRoundTrip(videoDbId, m);
    FrameKeyRoundTrip(videoDbId, n);
  }

  lemma FrameKeyDistinct(videoDbId: string, m: nat, n: nat)
    requires m != n
    ensures FrameKey(videoDbId, m) != FrameKey(videoDbId, n)
  {
    if FrameKey(videoDbId, m) == FrameKey(videoDbId, n) {
      FrameKeyInjective(videoDbId, m, n);
    }
  }

  lemma FrameKeysDistinct(videoDbId: string, n: nat)
    ensures forall i, j :: 0 <= i < j < n ==> FrameKey(videoDbId, i) != FrameKey(videoDbId, j)
  {
    forall i, j | 0 <= i < j < n ensures FrameKey(videoDbId, i) != FrameKey(videoDbId, j) {
      FrameKeyDistinct(videoDbId, i, j);
    }
  }

  /** How many frames, from the first, re-encode without error. */
  function OptimizedPrefix(bodies: seq<seq<bv8>>, optimize: seq<bv8> -> Result<seq<bv8>, string>): (k: nat)
    ensures k <= |bodies|
    ensures forall i :: 0 <= i < k ==> optimize(bodies[i]).Success?
    ensures k < |bodies| ==> optimize(bodies[k]).Failure?
    decreases |bodies|
  {
    if |bodies| == 0 || optimize(bodies[0]).Failure? then 0
    else 1 + OptimizedPrefix(bodies[1..], optimize)
  }

  /** The bucket after the first `k` frames have been stored. */
  function Stored(objects: map<string, StoredObject>, videoDbId: string, bodies: seq<seq<bv8>>,
                  optimize: seq<bv8> -> Result<seq<bv8>, string>, k: nat): map<string, StoredObject>
    requires k <= OptimizedPrefix(bodies, optimize)
  {
    if k == 0 then objects
    else
      Stored(objects, videoDbId, bodies, optimize, k - 1)
        [FrameKey(videoDbId, k - 1) := StoredObject(optimize(bodies[k - 1]).value, JpegContentType)]
  }

  /** After `k` frames are stored, frame `i < k` is found under its key,
      re-encoded and typed as JPEG: no later upload overwrites it. */
  lemma {:induction false} StoredFrames(objects: map<string, StoredObject>, videoDbId: string,
                                        bodies: seq<seq<bv8>>, optimize: seq<bv8> -> Result<seq<bv8>, string>,
                                        k: nat, i: nat)
    requires i < k <= OptimizedPrefix(bodies, optimize)
    ensures FrameKey(videoDbId, i) in Stored(objects, videoDbId, bodies, optimize, k)
    ensures Stored(objects, videoDbId, bodies, optimize, k)[FrameKey(videoDbId, i)]
         == StoredObject(optimize(bodies[i]).value, JpegContentType)
    decreases k
  {
    StoredStep(objects, videoDbId, bodies, optimize, k);
    var stored := StoredObject(optimize(bodies[k - 1]).value, JpegContentType);
    if i < k - 1 {
      StoredFrames(objects, videoDbId, bodies, optimize, k - 1, i);
      FrameKeyDistinct(videoDbId, i, k - 1);
      UpdateOther(Stored(objects, videoDbId, bodies, optimize, k - 1),
                  FrameKey(videoDbId, i), FrameKey(videoDbId, k - 1), stored);
    }
  }

  lemma StoredStep(objects: map<string, StoredObject>, videoDbId: string,
                   bodies: seq<seq<bv8>>, optimize: seq<bv8> -> Result<seq<bv8>, string>, k: nat)
    requires 0 < k <= OptimizedPrefix(bodies, optimize)
    ensures optimize(bodies[k - 1]).Success?
    ensures Stored(objects, videoDbId, bodies, optimize, k)
         == Stored(objects, videoDbId, bodies, optimize, k - 1)
              [FrameKey(videoDbId, k - 1) := StoredObject(optimize(bodies[k - 1]).value, JpegContentType)]
  {
  }

  /** `m` holds what `objects` holds under every key outside `keys`. */
  ghost predicate AgreeOutside(m: map<string, StoredObject>, objects: map<string, StoredObject>, keys: seq<string>) {
    forall key :: key !in keys ==>
      (key in m <==> key in objects) && (key in objects ==> m[key] == objects[key])
  }

  /** Storing the first `k` frames leaves every other key as it was. */
  lemma {:induction false} StoredOthers(objects: map<string, StoredObject>, videoDbId: string,
                                        bodies: seq<seq<bv8>>, optimize: seq<bv8> -> Result<seq<bv8>, string>, k: nat)
    requires k <= OptimizedPrefix(bodies, optimize)
    ensures AgreeOutside(Stored(objects, videoDbId, bodies, optimize, k), objects, FrameKeys(videoDbId, k))
    decreases k
  {
    if k > 0 {
      StoredOthers(objects, videoDbId, bodies, optimize, k - 1);
      StoredStep(objects, videoDbId, bodies, optimize, k);
      FrameKeysSnoc(videoDbId, k - 1);
      UpdateOutside(objects, Stored(objects, videoDbId, bodies, optimize, k - 1), FrameKeys(videoDbId, k - 1),
                    FrameKey(videoDbId, k - 1), StoredObject(optimize(bodies[k - 1]).value, JpegContentType));
    }
  }

  /** A map that agrees with `objects` outside `keys` still does after one
      more key is written. */
  lemma UpdateOutside(objects: map<string, StoredObject>, m: map<string, StoredObject>,
                      keys: seq<string>, newKey: string, v: StoredObject)
    requires AgreeOutside(m, objects, keys)
    ensures AgreeOutside(m[newKey := v], objects, keys + [newKey])
  {
    forall key | key !in keys + [newKey]
      ensures (key in m[newKey := v] <==> key in objects) && (key in objects ==> m[newKey := v][key] == objects[key])
    {
      assert key !in keys && key != newKey;
    }
  }

  lemma UpdateOther(m: map<string, StoredObject>, key: string, other: string, v: StoredObject)
    requires key != other
    ensures (key in m[other := v] <==> key in m) && (key in m ==> m[other := v][key] == m[key])
  {
  }

  /** Among the first `n` frames, the number of frames, from the second on,
      whose predecessor compares as motion at the default threshold. Frame 0
      is never compared, so fewer than `n` frames count. */
  function MotionCount(frames: seq<Frame>, decode: seq<bv8> -> Option<Greyscale>, n: nat): (count: nat)
    requires n <= |frames|
    ensures n > 0 ==> count < n
  {
    if n <= 1 then 0
    else
      MotionCount(frames, decode, n - 1)
        + (if Detected(decode(frames[n - 2].buffer), decode(frames[n - 1].buffer)) then 1 else 0)
  }

  /** Frames that decode to identical rasters contribute no motion. */
  lemma {:induction false} StillVideoHasNoMotion(frames: seq<Frame>, decode: seq<bv8> -> Option<Greyscale>, n: nat)
    requires n <= |frames|
    requires forall i, j :: 0 <= i < |frames| && 0 <= j < |frames| ==> decode(frames[i].buffer) == decode(frames[j].buffer)
    ensures MotionCount(frames, decode, n) == 0
  {
    if n > 1 {
      StillVideoHasNoMotion(frames, decode, n - 1);
      var d := decode(frames[n - 1].buffer);
      if d.Some? {
        NoMotionForIdenticalFrames(d.value, DefaultThreshold);
      }
    }
  }

  /** Counting one more frame adds one exactly when it moved against its
      predecessor. */
  lemma MotionCountNext(frames: seq<Frame>, decode: seq<bv8> -> Option<Greyscale>, i: nat, moved: bool)
    requires 0 < i < |frames|
    requires moved == Detected(decode(frames[i - 1].buffer), decode(frames[i].buffer))
    ensures MotionCount(frames, decode, i + 1) == MotionCount(frames, decode, i) + (if moved then 1 else 0)
  {
  }

  lemma FrameKeysSnoc(videoDbId: string, n: nat)
    ensures FrameKeys(videoDbId, n + 1) == FrameKeys(videoDbId, n) + [FrameKey(videoDbId, n)]
  {
  }

  /** One more upload extends the log by the next frame key. */
  lemma UploadLogStep(before: seq<string>, videoDbId: string, n: nat)
    ensures before + FrameKeys(videoDbId, n) + [FrameKey(videoDbId, n)] == before + FrameKeys(videoDbId, n + 1)
  {
    FrameKeysSnoc(videoDbId, n);
  }

  /** Frame `i` of the numbered list carries body `i` and number `i`. */
  lemma NumberedAt(bodies: seq<seq<bv8>>, interval: real, i: nat)
    requires i < |bodies|
    ensures |Numbered(bodies, interval)| == |bodies|
    ensures Numbered(bodies, interval)[i].frameNumber == i
    ensures Numbered(bodies, interval)[i].buffer == bodies[i]
  {
  }

  lemma OptimizedPrefixStops(bodies: seq<seq<bv8>>, optimize: seq<bv8> -> Result<seq<bv8>, string>, i: nat)
    requires i <= OptimizedPrefix(bodies, optimize) && i < |bodies|
    requires optimize(bodies[i]).Failure?
    ensures OptimizedPrefix(bodies, optimize) == i
  {
  }

  lemma OptimizedPrefixStep(bodies: seq<seq<bv8>>, optimize: seq<bv8> -> Result<seq<bv8>, string>, i: nat)
    requires i <= OptimizedPrefix(bodies, optimize) && i < |bodies|
    requires optimize(bodies[i]).Success?
    ensures i + 1 <= OptimizedPrefix(bodies, optimize)
  {
  }

  /** The loop of `processVideoFrames` over the frames of `chunks`. */
  method ProcessVideoFrames(chunks: seq<seq<bv8>>, videoDbId: string, intervalSeconds: real,
                            decode: seq<bv8> -> Option<Greyscale>,
                            optimize: seq<bv8> -> Result<seq<bv8>, string>,
                            store: ArtifactStore)
    returns (r: Result<ProcessSummary, ProcessError>)
    modifies store
    ensures var bodies := FrameBodies(chunks);
      var k := OptimizedPrefix(bodies, optimize);
      && (bodies == [] ==>
            && r == Failure(ExtractionFailed(NoFramesError))
            && store.uploads == old(store.uploads) && store.objects == old(store.objects))
      && (bodies != [] ==>
            && store.uploads == old(store.uploads) + FrameKeys(videoDbId, k)
            && store.objects == Stored(old(store.objects), videoDbId, bodies, optimize, k)
            && (r.Success? <==> k == |bodies|)
            && (r.Failure? ==> k < |bodies| && r.error == OptimizeFailed(optimize(bodies[k]).error)))
    ensures r.Success? ==>
      var frames := Numbered(FrameBodies(chunks), intervalSeconds);
      && r.value.frameCount == |frames| == CountOpenings(chunks) > 0
      && r.value.motionDetectedFrames == MotionCount(frames, decode, |frames|)
      && r.value.motionDetectedFrames < r.value.frameCount
  {
    FrameCount(chunks);
    ghost var bodies := FrameBodies(chunks);
    var extracted := ExtractFrames(chunks, intervalSeconds);
    if extracted.Failure? {
      return Failure(ExtractionFailed(extracted.error));
    }
    var frames := extracted.value;
    var motionDetectedCount := 0;
    for i := 0 to |frames|
      invariant i <= OptimizedPrefix(bodies, optimize)
      invariant store.uploads == old(store.uploads) + FrameKeys(videoDbId, i)
      invariant store.objects == Stored(old(store.objects), videoDbId, bodies, optimize, i)
      invariant motionDetectedCount == MotionCount(frames, decode, i)
    {
      NumberedAt(bodies, intervalSeconds, i);
      var frame := frames[i];
      var optimizedFrame := optimize(frame.buffer);
      if optimizedFrame.Failure? {
        OptimizedPrefixStops(bodies, optimize, i);
        return Failure(OptimizeFailed(optimizedFrame.error));
      }
      var r2Key := FrameKey(videoDbId, frame.frameNumber);
      store.Upload(r2Key, optimizedFrame.value, JpegContentType);
      UploadLogStep(old(store.uploads), videoDbId, i);
      OptimizedPrefixStep(bodies, optimize, i);
      StoredStep(old(store.objects), videoDbId, bodies, optimize, i + 1);
      if i > 0 {
        var prevFrame := frames[i - 1];
        var motionResult := DetectMotion(decode(prevFrame.buffer), decode(frame.buffer), DefaultThreshold);
        MotionCountNext(frames, decode, i, motionResult.hasMotion);
        if motionResult.hasMotion {
          motionDetectedCount := motionDetectedCount + 1;
        }
      }
    }
    return Success(ProcessSummary(|frames|, motionDetectedCount));
  }
}
