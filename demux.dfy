/** The PNG frame demultiplexer of extractFramesFromVideo: the encoder's
    image2pipe output arrives as a sequence of byte chunks, and each chunk
    in which the PNG file signature is found starts a new frame. The
    encoder itself, the video download and the stream error handlers are
    outside the model; the chunk sequence is its input. */
module FrameDemux {
  import opened Common

  /** The 8-byte PNG file signature (section 3.1 of RFC 2083). */
  const PngSignature: seq<bv8> := [0x89, 0x50, 0x4E, 0x47, 0x0D, 0x0A, 0x1A, 0x0A]

  const NoFramesError: string := "No frames extracted from video"

  datatype Frame = Frame(frameNumber: nat, timestamp: real, buffer: seq<bv8>)

  // ---------------------------------------------------------------------
  // Byte search (Buffer.prototype.indexOf with a buffer argument)
  // ---------------------------------------------------------------------

  predicate OccursAt(hay: seq<bv8>, needle: seq<bv8>, i: int) {
    0 <= i && i + |needle| <= |hay| && hay[i..i + |needle|] == needle
  }

  /** Leftmost occurrence of `needle` at or after `from`, or -1. */
  function IndexFrom(hay: seq<bv8>, needle: seq<bv8>, from: nat): (r: int)
    requires from <= |hay|
    ensures r == -1 || (from <= r <= |hay| && OccursAt(hay, needle, r))
    ensures forall j :: from <= j && (r == -1 || j < r) ==> !OccursAt(hay, needle, j)
    decreases |hay| - from
  {
    if OccursAt(hay, needle, from) then from
    else if from == |hay| then -1
    else IndexFrom(hay, needle, from + 1)
  }

  function IndexOf(hay: seq<bv8>, needle: seq<bv8>): int {
    IndexFrom(hay, needle, 0)
  }

  predicate HasSignature(chunk: seq<bv8>) {
    IndexOf(chunk, PngSignature) >= 0
  }

  /** The part of a chunk from its first signature on. */
  function SignatureSuffix(chunk: seq<bv8>): (s: seq<bv8>)
    requires HasSignature(chunk)
    ensures PngSignature <= s
  {
    chunk[IndexOf(chunk, PngSignature)..]
  }

  /** Buffer.concat over a list of buffers. */
  function Flatten(bufs: seq<seq<bv8>>): seq<bv8>
    decreases |bufs|
  {
    if |bufs| == 0 then [] else Flatten(bufs[..|bufs| - 1]) + bufs[|bufs| - 1]
  }

  lemma {:induction false} FlattenAppend(a: seq<seq<bv8>>, b: seq<seq<bv8>>)
    ensures Flatten(a + b) == Flatten(a) + Flatten(b)
    decreases |b|
  {
    if |b| == 0 {
      assert a + b == a;
    } else {
      var b' := b[..|b| - 1];
      var last := b[|b| - 1];
      assert b == b' + [last];
      assert a + b == (a + b') + [last];
      FlattenAppend(a, b');
      FlattenSnoc(a + b', last);
      FlattenSnoc(b', last);
      AppendAssoc(Flatten(a), Flatten(b'), last);
    }
  }

  // ---------------------------------------------------------------------
  // Reference definition of the frames a chunk sequence yields
  // ---------------------------------------------------------------------

  /** Index of the last chunk holding a signature, or -1. */
  function LastOpening(chunks: seq<seq<bv8>>): (r: int)
    ensures -1 <= r < |chunks|
    ensures r >= 0 ==> HasSignature(chunks[r])
    ensures forall i :: r < i < |chunks| ==> !HasSignature(chunks[i])
    decreases |chunks|
  {
    if |chunks| == 0 then -1
    else if HasSignature(chunks[|chunks| - 1]) then |chunks| - 1
    else LastOpening(chunks[..|chunks| - 1])
  }

  /** The frame opened by the last signature chunk: that chunk's signature
      suffix followed by every later chunk. */
  function OpenBody(chunks: seq<seq<bv8>>): (body: seq<bv8>)
    requires LastOpening(chunks) >= 0
    ensures PngSignature <= body
  {
    var l := LastOpening(chunks);
    var head := SignatureSuffix(chunks[l]);
    assert (head + Flatten(chunks[l + 1..]))[..|PngSignature|] == head[..|PngSignature|];
    head + Flatten(chunks[l + 1..])
  }

  /** The frames that a chunk sequence yields once the stream ends: the frames
      closed before the last signature chunk, then the one it opened. Every
      frame begins with the signature. */
  function FrameBodies(chunks: seq<seq<bv8>>): (bodies: seq<seq<bv8>>)
    ensures forall k :: 0 <= k < |bodies| ==> PngSignature <= bodies[k]
    decreases |chunks|, 1
  {
    if LastOpening(chunks) < 0 then [] else ClosedBodies(chunks) + [OpenBody(chunks)]
  }

  /** The frames already closed while the last signature chunk's frame is open. */
  function ClosedBodies(chunks: seq<seq<bv8>>): (bodies: seq<seq<bv8>>)
    ensures forall k :: 0 <= k < |bodies| ==> PngSignature <= bodies[k]
    decreases |chunks|, 0
  {
    var l := LastOpening(chunks);
    if l < 0 then [] else FrameBodies(chunks[..l])
  }

  /** Number of chunks in which the signature is found, counted from the front. */
  function CountOpenings(chunks: seq<seq<bv8>>): nat
    decreases |chunks|
  {
    if |chunks| == 0 then 0
    else (if HasSignature(chunks[0]) then 1 else 0) + CountOpenings(chunks[1..])
  }

  /** The timestamp of frame `k`: `frameIndex * intervalSeconds`. */
  function Timestamp(k: nat, interval: real): real {
    k as real * interval
  }

  /** Frame records numbered in arrival order, stamped at `interval` spacing. */
  function Numbered(bodies: seq<seq<bv8>>, interval: real): seq<Frame> {
    seq(|bodies|, k requires 0 <= k < |bodies| => Frame(k, Timestamp(k, interval), bodies[k]))
  }

  lemma NumberedAppend(bodies: seq<seq<bv8>>, b: seq<bv8>, interval: real)
    ensures Numbered(bodies + [b], interval)
         == Numbered(bodies, interval) + [Frame(|bodies|, Timestamp(|bodies|, interval), b)]
  {
    var lhs := Numbered(bodies + [b], interval);
    var rhs := Numbered(bodies, interval) + [Frame(|bodies|, Timestamp(|bodies|, interval), b)];
    assert |lhs| == |rhs|;
    forall k | 0 <= k < |lhs| ensures lhs[k] == rhs[k] {
    }
  }

  lemma FlattenSnoc(bufs: seq<seq<bv8>>, b: seq<bv8>)
    ensures Flatten(bufs + [b]) == Flatten(bufs) + b
  {
    assert (bufs + [b])[..|bufs|] == bufs;
  }

  lemma SliceSplit<T>(s: seq<T>, a: nat, b: nat)
    requires a <= b <= |s|
    ensures s[a..] == s[a..b] + s[b..]
  {
  }

  lemma Regroup(h: seq<bv8>, m: seq<bv8>, t: seq<bv8>, u: seq<bv8>, r: seq<bv8>)
    ensures (h + m + t) + (u + r) == h + (m + ((t + u) + r))
  {
  }

  /** Flattening a run of chunks around the chunk at `m`. */
  lemma FlattenAround(chunks: seq<seq<bv8>>, a: nat, m: nat)
    requires a <= m < |chunks|
    ensures Flatten(chunks[a..]) == Flatten(chunks[a..m]) + (chunks[m] + Flatten(chunks[m + 1..]))
  {
    SliceSplit(chunks, a, m);
    SliceSplit(chunks, m, m + 1);
    assert chunks[m..m + 1] == [chunks[m]];
    FlattenAppend(chunks[a..m], chunks[m..]);
    FlattenAppend([chunks[m]], chunks[m + 1..]);
    FlattenSingle(chunks[m]);
  }

  lemma FlattenSingle(b: seq<bv8>)
    ensures Flatten([b]) == b
  {
    FlattenSnoc([], b);
  }

  /** Receiving a chunk with a signature: the frame open until then (if any)
      becomes the last closed one, and the chunk's suffix opens the next. */
  lemma ReceiveOpening(before: seq<seq<bv8>>, chunk: seq<bv8>)
    requires HasSignature(chunk)
    ensures LastOpening(before + [chunk]) == |before|
    ensures ClosedBodies(before + [chunk]) == FrameBodies(before)
    ensures OpenBody(before + [chunk]) == SignatureSuffix(chunk)
  {
    var after := before + [chunk];
    OpeningKeepsPrefix(before, chunk);
    OpenBodyAt(after, |before|);
    assert after[|before| + 1..] == [];
  }

  lemma OpeningKeepsPrefix(before: seq<seq<bv8>>, chunk: seq<bv8>)
    requires HasSignature(chunk)
    ensures LastOpening(before + [chunk]) == |before|
    ensures (before + [chunk])[..|before|] == before
  {
    assert (before + [chunk])[|before|] == chunk;
  }

  /** Receiving a chunk without a signature: it extends the open frame. */
  lemma ReceivePlain(before: seq<seq<bv8>>, chunk: seq<bv8>)
    requires !HasSignature(chunk)
    ensures LastOpening(before + [chunk]) == LastOpening(before)
    ensures ClosedBodies(before + [chunk]) == ClosedBodies(before)
    ensures LastOpening(before) >= 0 ==> OpenBody(before + [chunk]) == OpenBody(before) + chunk
  {
    PlainKeepsLastOpening(before, chunk);
    var after := before + [chunk];
    var l := LastOpening(before);
    if l >= 0 {
      assert after[..l] == before[..l];
      assert ClosedBodies(after) == FrameBodies(before[..l]);
      PlainExtendsOpenBody(before, chunk);
    }
  }

  lemma PlainKeepsLastOpening(before: seq<seq<bv8>>, chunk: seq<bv8>)
    requires !HasSignature(chunk)
    ensures LastOpening(before + [chunk]) == LastOpening(before)
  {
    var after := before + [chunk];
    assert after[|before|] == chunk;
    assert after[..|before|] == before;
  }

  lemma PlainExtendsOpenBody(before: seq<seq<bv8>>, chunk: seq<bv8>)
    requires !HasSignature(chunk) && LastOpening(before) >= 0
    ensures OpenBody(before + [chunk]) == OpenBody(before) + chunk
  {
    PlainKeepsLastOpening(before, chunk);
    var after := before + [chunk];
    var l := LastOpening(before);
    OpenBodyAt(before, l);
    OpenBodyAt(after, l);
    SnocSlices(before, chunk, l);
    FlattenSnoc(before[l + 1..], chunk);
    AppendAssoc(SignatureSuffix(before[l]), Flatten(before[l + 1..]), chunk);
  }

  lemma SnocSlices(chunks: seq<seq<bv8>>, chunk: seq<bv8>, l: nat)
    requires l < |chunks|
    ensures (chunks + [chunk])[l] == chunks[l]
    ensures (chunks + [chunk])[l + 1..] == chunks[l + 1..] + [chunk]
  {
  }

  lemma AppendAssoc(a: seq<bv8>, b: seq<bv8>, c: seq<bv8>)
    ensures (a + b) + c == a + (b + c)
  {
  }

  lemma OpenBodyAt(chunks: seq<seq<bv8>>, l: int)
    requires l == LastOpening(chunks) >= 0
    ensures OpenBody(chunks) == SignatureSuffix(chunks[l]) + Flatten(chunks[l + 1..])
  {
  }

  /** What a chunk sequence has yielded so far: the frames closed, and the
      body of the frame still open, if any. */
  datatype Progress = Progress(closed: seq<seq<bv8>>, open: Option<seq<bv8>>)

  /** One chunk, on the values: a signature closes the open frame and opens
      the next from the signature on; other chunks extend the open frame. */
  function Feed(p: Progress, chunk: seq<bv8>): Progress {
    if HasSignature(chunk) then
      Progress(p.closed + (if p.open.Some? then [p.open.value] else []), Some(SignatureSuffix(chunk)))
    else if p.open.Some? then Progress(p.closed, Some(p.open.value + chunk))
    else p
  }

  /** The chunks fed one by one, from the start. */
  function Demuxed(chunks: seq<seq<bv8>>): Progress
    decreases |chunks|
  {
    if |chunks| == 0 then Progress([], None)
    else Feed(Demuxed(chunks[..|chunks| - 1]), chunks[|chunks| - 1])
  }

  lemma DemuxedSnoc(chunks: seq<seq<bv8>>, chunk: seq<bv8>)
    ensures Demuxed(chunks + [chunk]) == Feed(Demuxed(chunks), chunk)
  {
    assert (chunks + [chunk])[..|chunks|] == chunks;
  }

  /** Feeding the chunks one at a time agrees with the reference definition:
      the frames closed are `ClosedBodies`, a frame is open once a signature
      chunk has arrived, and its body is `OpenBody`. */
  lemma {:induction false} DemuxedIsReference(chunks: seq<seq<bv8>>)
    ensures Demuxed(chunks).closed == ClosedBodies(chunks)
    ensures Demuxed(chunks).open.Some? <==> LastOpening(chunks) >= 0
    ensures Demuxed(chunks).open.Some? ==> Demuxed(chunks).open.value == OpenBody(chunks)
    decreases |chunks|
  {
    if |chunks| > 0 {
      var before := chunks[..|chunks| - 1];
      var chunk := chunks[|chunks| - 1];
      assert chunks == before + [chunk];
      DemuxedIsReference(before);
      if HasSignature(chunk) {
        ReceiveOpening(before, chunk);
      } else {
        ReceivePlain(before, chunk);
      }
    }
  }

  /** All the frames of a finished stream: the closed ones, then the open one. */
  function AllFrames(p: Progress): seq<seq<bv8>> {
    p.closed + (if p.open.Some? then [p.open.value] else [])
  }

  /** Flushing the open frame at the end of the stream gives the reference
      frames. */
  lemma AllFramesAreReference(chunks: seq<seq<bv8>>)
    ensures AllFrames(Demuxed(chunks)) == FrameBodies(chunks)
  {
    DemuxedIsReference(chunks);
  }

  /** A demultiplexer state shows the progress `p`: the closed frames,
      numbered in order, and the open frame's buffers. */
  ghost predicate Shows(p: Progress, frames: seq<Frame>, frameIndex: nat,
                        currentFrame: seq<seq<bv8>>, inFrame: bool, interval: real)
  {
    && frameIndex == |frames|
    && frames == Numbered(p.closed, interval)
    && (inFrame <==> p.open.Some?)
    && (inFrame ==> |currentFrame| > 0 && Flatten(currentFrame) == p.open.value)
    && (!inFrame ==> currentFrame == [])
  }

  /** What the 'data' handler does to a state (f, n, c, b) on `chunk`,
      giving (f2, n2, c2, b2). */
  ghost predicate DataHandled(chunk: seq<bv8>, interval: real,
                              f: seq<Frame>, n: nat, c: seq<seq<bv8>>, b: bool,
                              f2: seq<Frame>, n2: nat, c2: seq<seq<bv8>>, b2: bool)
  {
    && (HasSignature(chunk) ==> b2 && c2 == [SignatureSuffix(chunk)])
    && (HasSignature(chunk) && b ==>
          f2 == f + [Frame(n, Timestamp(n, interval), Flatten(c))] && n2 == n + 1)
    && (HasSignature(chunk) && !b ==> f2 == f && n2 == n)
    && (!HasSignature(chunk) ==>
          b2 == b && f2 == f && n2 == n && c2 == (if b then c + [chunk] else c))
  }

  /** The 'data' handler advances the state shown by one chunk. */
  lemma DataStep(p: Progress, chunk: seq<bv8>, interval: real,
                 f: seq<Frame>, n: nat, c: seq<seq<bv8>>, b: bool,
                 f2: seq<Frame>, n2: nat, c2: seq<seq<bv8>>, b2: bool)
    requires Shows(p, f, n, c, b, interval)
    requires DataHandled(chunk, interval, f, n, c, b, f2, n2, c2, b2)
    ensures Shows(Feed(p, chunk), f2, n2, c2, b2, interval)
  {
    if HasSignature(chunk) {
      FlattenSingle(SignatureSuffix(chunk));
      if b {
        NumberedAppend(p.closed, Flatten(c), interval);
      }
    } else if b {
      FlattenSnoc(c, chunk);
    }
  }

  /** Handling chunk `i` advances the state shown from the first `i` chunks
      to the first `i + 1`. */
  lemma Advance(chunks: seq<seq<bv8>>, i: nat, p: Progress, interval: real,
                f: seq<Frame>, n: nat, c: seq<seq<bv8>>, b: bool,
                f2: seq<Frame>, n2: nat, c2: seq<seq<bv8>>, b2: bool)
    requires i < |chunks| && p == Demuxed(chunks[..i])
    requires Shows(p, f, n, c, b, interval)
    requires DataHandled(chunks[i], interval, f, n, c, b, f2, n2, c2, b2)
    ensures Feed(p, chunks[i]) == Demuxed(chunks[..i + 1])
    ensures Shows(Feed(p, chunks[i]), f2, n2, c2, b2, interval)
  {
    DataStep(p, chunks[i], interval, f, n, c, b, f2, n2, c2, b2);
    DemuxedSnoc(chunks[..i], chunks[i]);
    assert chunks[..i + 1] == chunks[..i] + [chunks[i]];
  }

  /** The closure state of one extraction: the frames pushed so far, the
      running frame counter, the buffers of the open frame and whether a
      frame is open. */
  class FrameDemuxer {
    const intervalSeconds: real
    var frames: seq<Frame>
    var frameIndex: nat
    var currentFrame: seq<seq<bv8>>
    var inFrame: bool

    /** The counter numbers the next frame, and a frame is open exactly
        while buffers are collected for it. */
    ghost predicate Valid()
      reads this
    {
      && frameIndex == |frames|
      && (inFrame ==> |currentFrame| > 0)
      && (!inFrame ==> currentFrame == [])
    }

    /** The state shows the progress `p` (see `Shows`). */
    ghost predicate Summary(p: Progress)
      reads this
    {
      Shows(p, frames, frameIndex, currentFrame, inFrame, intervalSeconds)
    }

    constructor (intervalSeconds: real)
      ensures Valid() && Summary(Progress([], None))
      ensures this.intervalSeconds == intervalSeconds
      ensures frames == [] && frameIndex == 0 && currentFrame == [] && !inFrame
    {
      this.intervalSeconds := intervalSeconds;
      frames := [];
      frameIndex := 0;
      currentFrame := [];
      inFrame := false;
    }

    /** The 'data' handler: a chunk with a signature closes the open frame
        (if any) and opens a new one from the signature on; a chunk without
        one extends the open frame, or is dropped when none is open. */
    method OnData(chunk: seq<bv8>)
      requires Valid()
      modifies this
      ensures Valid()
      ensures DataHandled(chunk, intervalSeconds, old(frames), old(frameIndex), old(currentFrame), old(inFrame),
                          frames, frameIndex, currentFrame, inFrame)
    {
      var signatureIndex := IndexOf(chunk, PngSignature);
      if signatureIndex >= 0 {
        if inFrame && |currentFrame| > 0 {
          var frameBuffer := Flatten(currentFrame);
          frames := frames + [Frame(frameIndex, Timestamp(frameIndex, intervalSeconds), frameBuffer)];
          frameIndex := frameIndex + 1;
          currentFrame := [];
        }
        var opening := if signatureIndex > 0 then chunk[signatureIndex..] else chunk;
        assert opening == SignatureSuffix(chunk);
        inFrame := true;
        currentFrame := currentFrame + [opening];
      } else if inFrame {
        currentFrame := currentFrame + [chunk];
      }
    }

    /** The 'end' handler: flush the open frame, then reject when no frame
        was produced and resolve with all frames otherwise. */
    method OnEnd(ghost p: Progress) returns (r: Result<seq<Frame>, string>)
      requires Valid() && Summary(p)
      modifies this
      ensures frameIndex == old(frameIndex)
      ensures currentFrame == old(currentFrame) && inFrame == old(inFrame)
      ensures frames == Numbered(AllFrames(p), intervalSeconds)
      ensures r == if frames == [] then Failure(NoFramesError) else Success(frames)
    {
      if inFrame && |currentFrame| > 0 {
        var frameBuffer := Flatten(currentFrame);
        NumberedAppend(p.closed, frameBuffer, intervalSeconds);
        frames := frames + [Frame(frameIndex, Timestamp(frameIndex, intervalSeconds), frameBuffer)];
      } else {
        assert p.closed + [] == p.closed;
      }
      if |frames| == 0 {
        r := Failure(NoFramesError);
      } else {
        r := Success(frames);
      }
    }
  }

  /** extractFramesFromVideo with the encoder's output given as chunks: feed
      every chunk to the data handler, then run the end handler. */
  method ExtractFrames(chunks: seq<seq<bv8>>, intervalSeconds: real)
    returns (r: Result<seq<Frame>, string>)
    ensures r == if CountOpenings(chunks) == 0 then Failure(NoFramesError)
                 else Success(Numbered(FrameBodies(chunks), intervalSeconds))
  {
    var demuxer := new FrameDemuxer(intervalSeconds);
    ghost var progress := Progress([], None);
    for i := 0 to |chunks|
      invariant demuxer.Valid()
      invariant demuxer.intervalSeconds == intervalSeconds
      invariant progress == Demuxed(chunks[..i])
      invariant demuxer.Summary(progress)
    {
      ghost var f, n, c, b := demuxer.frames, demuxer.frameIndex, demuxer.currentFrame, demuxer.inFrame;
      demuxer.OnData(chunks[i]);
      Advance(chunks, i, progress, intervalSeconds, f, n, c, b,
              demuxer.frames, demuxer.frameIndex, demuxer.currentFrame, demuxer.inFrame);
      progress := Feed(progress, chunks[i]);
    }
    assert chunks[..|chunks|] == chunks;
    r := demuxer.OnEnd(progress);
    AllFramesAreReference(chunks);
    FrameCount(chunks);
  }

  /** The frames a chunk sequence yields, numbered: one per signature
      chunk, numbered and stamped in order, each starting with the
      signature. */
  lemma NumberedFrames(chunks: seq<seq<bv8>>, interval: real)
    ensures var frames := Numbered(FrameBodies(chunks), interval);
      && |frames| == CountOpenings(chunks)
      && forall k :: 0 <= k < |frames| ==>
           && frames[k].frameNumber == k
           && frames[k].timestamp == Timestamp(k, interval)
           && PngSignature <= frames[k].buffer
  {
    FrameCount(chunks);
  }

  // ---------------------------------------------------------------------
  // Properties of the reference definition
  // ---------------------------------------------------------------------

  lemma {:induction false} CountOpeningsAppend(a: seq<seq<bv8>>, b: seq<seq<bv8>>)
    ensures CountOpenings(a + b) == CountOpenings(a) + CountOpenings(b)
    decreases |a|
  {
    if |a| > 0 {
      assert (a + b)[1..] == a[1..] + b;
      CountOpeningsAppend(a[1..], b);
    } else {
      assert a + b == b;
    }
  }

  lemma {:induction false} NoOpeningsCount(chunks: seq<seq<bv8>>)
    requires forall i :: 0 <= i < |chunks| ==> !HasSignature(chunks[i])
    ensures CountOpenings(chunks) == 0
    decreases |chunks|
  {
    if |chunks| > 0 {
      NoOpeningsCount(chunks[1..]);
    }
  }

  /** One frame per chunk in which the signature is found: a chunk holding
      several signatures still opens only one frame. */
  lemma {:induction false} FrameCount(chunks: seq<seq<bv8>>)
    ensures |FrameBodies(chunks)| == CountOpenings(chunks)
    decreases |chunks|
  {
    var l := LastOpening(chunks);
    if l < 0 {
      NoOpeningsCount(chunks);
    } else {
      FrameCount(chunks[..l]);
      CountThroughLastOpening(chunks, l);
    }
  }

  /** The last signature chunk is the only one counted from `l` on. */
  lemma CountThroughLastOpening(chunks: seq<seq<bv8>>, l: int)
    requires l == LastOpening(chunks) >= 0
    ensures CountOpenings(chunks) == CountOpenings(chunks[..l]) + 1
  {
    assert chunks == chunks[..l] + ([chunks[l]] + chunks[l + 1..]);
    CountOpeningsAppend(chunks[..l], [chunks[l]] + chunks[l + 1..]);
    CountOpeningsAppend([chunks[l]], chunks[l + 1..]);
    assert [chunks[l]][1..] == [];
    NoOpeningsCount(chunks[l + 1..]);
  }

  /** Where the last signature chunk falls in a concatenation of two chunk
      sequences. */
  lemma {:induction false} LastOpeningConcat(a: seq<seq<bv8>>, b: seq<seq<bv8>>)
    ensures LastOpening(a + b) == if LastOpening(b) >= 0 then |a| + LastOpening(b) else LastOpening(a)
    decreases |b|
  {
    if |b| == 0 {
      assert a + b == a;
    } else {
      var b' := b[..|b| - 1];
      assert (a + b)[..|a + b| - 1] == a + b';
      assert (a + b)[|a + b| - 1] == b[|b| - 1];
      LastOpeningConcat(a, b');
    }
  }

  /** Chunks without a signature that arrive before any frame is open are
      discarded entirely. */
  lemma {:induction false} LeadingChunksDiscarded(noise: seq<seq<bv8>>, chunks: seq<seq<bv8>>)
    requires forall i :: 0 <= i < |noise| ==> !HasSignature(noise[i])
    ensures FrameBodies(noise + chunks) == FrameBodies(chunks)
    decreases |chunks|
  {
    LastOpeningConcat(noise, chunks);
    var l := LastOpening(chunks);
    if l < 0 {
      assert LastOpening(noise) < 0;
    } else {
      var all := noise + chunks;
      var at := |noise| + l;
      assert LastOpening(all) == at;
      assert all[..at] == noise + chunks[..l];
      assert all[at] == chunks[l];
      assert all[at + 1..] == chunks[l + 1..];
      assert OpenBody(all) == OpenBody(chunks);
      LeadingChunksDiscarded(noise, chunks[..l]);
      assert ClosedBodies(all) == FrameBodies(noise + chunks[..l]);
      assert ClosedBodies(all) == ClosedBodies(chunks);
    }
  }

  lemma ShortChunkHasNoSignature(chunk: seq<bv8>)
    requires |chunk| < |PngSignature|
    ensures !HasSignature(chunk)
  {
  }

  /** A signature split across two chunks is not detected: wherever the
      split falls, the stream carries a complete signature, yet no frame is
      produced. */
  lemma SplitSignatureMissed(k: nat)
    requires 0 < k < |PngSignature|
    ensures FrameBodies([PngSignature[..k], PngSignature[k..]]) == []
  {
    var chunks := [PngSignature[..k], PngSignature[k..]];
    ShortChunkHasNoSignature(chunks[0]);
    ShortChunkHasNoSignature(chunks[1]);
    assert LastOpening(chunks[..1]) == -1;
  }

  /** An instance of `FramesKeepOnly`: in the stream [sig + [1]], [[2] + sig]
      the byte 2 follows the first frame's bytes while that frame is open,
      but no frame carries it, so the frames do not concatenate back to the
      stream. */
  lemma PrefixBytesLost()
    ensures var chunks := [PngSignature + [1], [2] + PngSignature];
      && FrameBodies(chunks) == [PngSignature + [1], PngSignature]
      && Flatten(FrameBodies(chunks)) != Flatten(chunks)
  {
    var c0: seq<bv8> := PngSignature + [1];
    var c1: seq<bv8> := [2] + PngSignature;
    var chunks: seq<seq<bv8>> := [c0, c1];
    var first: seq<seq<bv8>> := [c0];
    assert OccursAt(c0, PngSignature, 0) by { assert c0[0..8] == PngSignature; }
    assert !OccursAt(c1, PngSignature, 0) by { assert c1[0] != PngSignature[0]; }
    assert OccursAt(c1, PngSignature, 1) by { assert c1[1..9] == PngSignature; }
    assert IndexOf(c0, PngSignature) == 0;
    assert IndexOf(c1, PngSignature) == 1;
    assert LastOpening(chunks) == 1;
    assert chunks[..1] == first;
    assert LastOpening(first) == 0;
    assert |first[..0]| == 0;
    assert |chunks[2..]| == 0 && |first[1..]| == 0;
    assert ClosedBodies(first) == [];
    assert OpenBody(first) == c0;
    assert FrameBodies(first) == [c0];
    assert ClosedBodies(chunks) == [c0];
    assert OpenBody(chunks) == c1[1..];
    assert FrameBodies(chunks) == [c0, c1[1..]];
    assert |Flatten(FrameBodies(chunks))| == 17;
    assert |Flatten(chunks)| == 18;
  }

  /** The bytes the frames keep, chunk by chunk: a signature chunk from its
      signature on, a chunk without one whole once a frame is open, and
      nothing of a chunk that arrives before any frame is open. */
  function KeptBytes(chunks: seq<seq<bv8>>): seq<bv8>
    decreases |chunks|
  {
    if |chunks| == 0 then []
    else
      var before := chunks[..|chunks| - 1];
      var chunk := chunks[|chunks| - 1];
      KeptBytes(before)
        + (if HasSignature(chunk) then SignatureSuffix(chunk)
           else if LastOpening(before) >= 0 then chunk
           else [])
  }

  /** The frames, concatenated, are exactly the kept bytes: whatever precedes
      the signature in a chunk is lost, even while a frame is open. */
  lemma FramesKeepOnly(chunks: seq<seq<bv8>>)
    ensures Flatten(FrameBodies(chunks)) == KeptBytes(chunks)
  {
    DemuxedKeeps(chunks);
    AllFramesAreReference(chunks);
  }

  lemma {:induction false} DemuxedKeeps(chunks: seq<seq<bv8>>)
    ensures Flatten(AllFrames(Demuxed(chunks))) == KeptBytes(chunks)
    decreases |chunks|
  {
    if |chunks| > 0 {
      var before := chunks[..|chunks| - 1];
      var chunk := chunks[|chunks| - 1];
      DemuxedKeeps(before);
      DemuxedIsReference(before);
      FeedKeeps(Demuxed(before), chunk);
    }
  }

  /** What one chunk adds to the frames' bytes. */
  lemma FeedKeeps(p: Progress, chunk: seq<bv8>)
    ensures Flatten(AllFrames(Feed(p, chunk)))
         == Flatten(AllFrames(p))
              + (if HasSignature(chunk) then SignatureSuffix(chunk)
                 else if p.open.Some? then chunk
                 else [])
  {
    if HasSignature(chunk) {
      assert AllFrames(Feed(p, chunk)) == AllFrames(p) + [SignatureSuffix(chunk)];
      FlattenSnoc(AllFrames(p), SignatureSuffix(chunk));
    } else if p.open.Some? {
      assert AllFrames(p) == p.closed + [p.open.value];
      assert AllFrames(Feed(p, chunk)) == p.closed + [p.open.value + chunk];
      FlattenSnoc(p.closed, p.open.value);
      FlattenSnoc(p.closed, p.open.value + chunk);
      AppendAssoc(Flatten(p.closed), p.open.value, chunk);
    } else {
      assert Flatten(AllFrames(p)) + [] == Flatten(AllFrames(p));
    }
  }
}
