/**
 * The speedline data that both last-painted-hero metrics consume: frames with a visual
 * progress, a timestamp, an interpolation flag and a decoded screenshot, and the
 * byte-by-byte comparison of a rectangle of two screenshots.
 */
module Speedline {
  import opened Wrappers

  /** A decoded screenshot: `data` holds `width * height * channels` bytes. */
  datatype Image = Image(width: int, height: int, data: seq<int>)

  /** One speedline frame (`getProgress`, `getTimeStamp`, `isProgressInterpolated`, `getParsedImage`). */
  datatype Frame = Frame(progress: real, timestamp: real, interpolated: bool, image: Image)

  /** The speedline: its `beginning` timestamp and its frames in time order. */
  datatype SpeedlineData = SpeedlineData(beginning: real, frames: seq<Frame>)

  /** A hero element's rectangle, as the hero-elements gatherer reports it. */
  datatype Region = Region(x: int, y: int, width: int, height: int)

  /**
   * The bounds of one pixel scan: x in [x0, xMax), y in [y0, yMax), channel c with
   * c < channels, comparing bytes at `stride * y + x + c`.
   */
  datatype ScanBox = ScanBox(x0: int, xMax: int, y0: int, yMax: int, channels: real, stride: int)

  /** Decoded screenshots have a positive size. */
  predicate ValidScreenshots(frames: seq<Frame>) {
    forall i :: 0 <= i < |frames| ==> frames[i].image.width > 0 && frames[i].image.height > 0
  }

  /** `data.length / (width * height)`, the channel count (possibly fractional) of an image. */
  function Channels(img: Image): real
    requires img.width > 0 && img.height > 0
  {
    (|img.data| as real) / ((img.width * img.height) as real)
  }

  /** `frames.filter(frame => !frame.isProgressInterpolated())` */
  function Analyzed(frames: seq<Frame>): (r: seq<Frame>)
    ensures |r| <= |frames|
  {
    if frames == [] then []
    else (if frames[0].interpolated then [] else [frames[0]]) + Analyzed(frames[1..])
  }

  lemma {:induction false} AnalyzedAppend(a: seq<Frame>, b: seq<Frame>)
    ensures Analyzed(a + b) == Analyzed(a) + Analyzed(b)
  {
    if a == [] {
      assert a + b == b;
    } else {
      assert (a + b)[1..] == a[1..] + b;
      AnalyzedAppend(a[1..], b);
    }
  }

  /** Inserting an interpolated frame anywhere leaves the analyzed frames unchanged. */
  lemma {:induction false} AnalyzedIgnoresInterpolated(frames: seq<Frame>, k: nat, f: Frame)
    requires k <= |frames| && f.interpolated
    ensures Analyzed(frames[..k] + [f] + frames[k..]) == Analyzed(frames)
  {
    var a, b := frames[..k], frames[k..];
    assert Analyzed([f]) == [] by {
      assert [f][1..] == [];
    }
    calc {
      Analyzed(a + [f] + b);
      { AnalyzedAppend(a + [f], b); }
      Analyzed(a + [f]) + Analyzed(b);
      { AnalyzedAppend(a, [f]); }
      Analyzed(a) + Analyzed(b);
      { AnalyzedAppend(a, b); }
      Analyzed(a + b);
      { assert a + b == frames; }
      Analyzed(frames);
    }
  }

  /** The analyzed frames are the frames that are not interpolated, in their order. */
  lemma {:induction false} AnalyzedMembers(frames: seq<Frame>)
    ensures forall f :: f in Analyzed(frames) <==> f in frames && !f.interpolated
  {
    if frames != [] {
      AnalyzedMembers(frames[1..]);
      assert frames == [frames[0]] + frames[1..];
    }
  }

  /** Without interpolated frames the filter keeps every frame. */
  lemma {:induction false} AnalyzedKeepsRealFrames(frames: seq<Frame>)
    requires forall i :: 0 <= i < |frames| ==> !frames[i].interpolated
    ensures Analyzed(frames) == frames
  {
    if frames != [] {
      AnalyzedKeepsRealFrames(frames[1..]);
    }
  }

  /** `data[i]` in JavaScript: `undefined` (None) outside the buffer. */
  function ByteAt(data: seq<int>, i: int): (b: Option<int>)
    ensures b.Some? <==> 0 <= i < |data|
    ensures b.Some? ==> b.value == data[i]
  {
    if 0 <= i < |data| then Some(data[i]) else None
  }

  /** `value !== previousValue` at pixel (x, y), channel c. */
  predicate ByteDiffers(prev: seq<int>, cur: seq<int>, stride: int, x: int, y: int, c: int) {
    ByteAt(cur, stride * y + x + c) != ByteAt(prev, stride * y + x + c)
  }

  predicate InBox(box: ScanBox, x: int, y: int, c: int) {
    box.x0 <= x < box.xMax && box.y0 <= y < box.yMax && 0 <= c && (c as real) < box.channels
  }

  /** Some byte inside the scanned rectangle differs between the two screenshots. */
  ghost predicate RegionDiffers(prev: seq<int>, cur: seq<int>, box: ScanBox) {
    exists x, y, c :: InBox(box, x, y, c) && ByteDiffers(prev, cur, box.stride, x, y, c)
  }

  /** Nothing in the columns [x0, x) nor in column x below row y differs. */
  ghost predicate CleanBefore(prev: seq<int>, cur: seq<int>, box: ScanBox, x: int, y: int) {
    forall x', y', c :: InBox(box, x', y', c) && (x' < x || (x' == x && y' < y)) ==>
      !ByteDiffers(prev, cur, box.stride, x', y', c)
  }

  /**
   * The triple loop over x, y and the channels, left at the first differing byte: the
   * `x = y = c = Infinity` break of the source becomes the `found` flag.
   */
  method ScanRegion(prev: seq<int>, cur: seq<int>, box: ScanBox) returns (found: bool)
    ensures found <==> RegionDiffers(prev, cur, box)
  {
    found := false;
    var x := box.x0;
    while !found && x < box.xMax
      invariant box.x0 <= x
      invariant found ==> RegionDiffers(prev, cur, box)
      invariant !found ==> CleanBefore(prev, cur, box, x, box.y0)
      decreases (if found then 0 else 1), box.xMax - x
    {
      var y := box.y0;
      while !found && y < box.yMax
        invariant found ==> RegionDiffers(prev, cur, box)
        invariant !found ==> CleanBefore(prev, cur, box, x, y) && box.y0 <= y
        decreases (if found then 0 else 1), box.yMax - y
      {
        var c := 0;
        while !found && (c as real) < box.channels
          invariant 0 <= c
          invariant found ==> RegionDiffers(prev, cur, box)
          invariant !found ==> forall c' :: 0 <= c' < c ==> !ByteDiffers(prev, cur, box.stride, x, y, c')
          decreases (if found then 0 else 1), box.channels.Floor + 1 - c
        {
          if ByteDiffers(prev, cur, box.stride, x, y, c) {
            assert InBox(box, x, y, c);
            found := true;
          } else {
            c := c + 1;
          }
        }
        if !found {
          y := y + 1;
        }
      }
      if !found {
        x := x + 1;
      }
    }
  }

  /** The last timestamp, among the first n frames, of a frame whose flag is set (frame 0 excluded). */
  function LastFlagged(fs: seq<Frame>, flags: seq<bool>, n: nat, beginning: real): real
    requires n <= |fs| == |flags|
  {
    if n < 2 then beginning
    else if flags[n - 1] then fs[n - 1].timestamp
    else LastFlagged(fs, flags, n - 1, beginning)
  }

  /** LastFlagged is `beginning` when no frame in [1, n) is flagged. */
  lemma {:induction false} LastFlaggedNone(fs: seq<Frame>, flags: seq<bool>, n: nat, beginning: real)
    requires n <= |fs| == |flags|
    requires forall k :: 1 <= k < n ==> !flags[k]
    ensures LastFlagged(fs, flags, n, beginning) == beginning
  {
    if n >= 2 {
      LastFlaggedNone(fs, flags, n - 1, beginning);
    }
  }

  /** LastFlagged is the timestamp of the last flagged frame in [1, n). */
  lemma {:induction false} LastFlaggedLatest(fs: seq<Frame>, flags: seq<bool>, n: nat, k: nat, beginning: real)
    requires n <= |fs| == |flags|
    requires 1 <= k < n && flags[k]
    requires forall j :: k < j < n ==> !flags[j]
    ensures LastFlagged(fs, flags, n, beginning) == fs[k].timestamp
  {
    if k < n - 1 {
      LastFlaggedLatest(fs, flags, n - 1, k, beginning);
    }
  }

  /** LastFlagged is never before `beginning` when no frame is. */
  lemma {:induction false} LastFlaggedBounded(fs: seq<Frame>, flags: seq<bool>, n: nat, beginning: real)
    requires n <= |fs| == |flags|
    requires forall i :: 0 <= i < |fs| ==> fs[i].timestamp >= beginning
    ensures LastFlagged(fs, flags, n, beginning) >= beginning
  {
    if n >= 2 && !flags[n - 1] {
      LastFlaggedBounded(fs, flags, n - 1, beginning);
    }
  }

  /** LastFlagged depends only on the flags of frames 1 .. n-1. */
  lemma {:induction false} LastFlaggedSameFlags(fs: seq<Frame>, f1: seq<bool>, f2: seq<bool>, n: nat, beginning: real)
    requires n <= |fs| == |f1| == |f2|
    requires forall k :: 1 <= k < n ==> f1[k] == f2[k]
    ensures LastFlagged(fs, f1, n, beginning) == LastFlagged(fs, f2, n, beginning)
  {
    if n >= 2 {
      LastFlaggedSameFlags(fs, f1, f2, n - 1, beginning);
    }
  }

  /** `Math.max(...timings)` of a non-empty list. */
  function MaxOf(s: seq<real>): (m: real)
    requires |s| > 0
    ensures m in s
    ensures forall i :: 0 <= i < |s| ==> s[i] <= m
  {
    if |s| == 1 then s[0]
    else
      var rest := MaxOf(s[1..]);
      if s[0] >= rest then s[0] else rest
  }
}
