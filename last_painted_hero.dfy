/**
 * The last-painted-hero metric of lighthouse-core/computed/metrics: the time of the last
 * screenshot in which some byte of a hero element's rectangle changed, with the rectangle
 * scaled from viewport to screenshot pixels.
 */
module LastPaintedHero {
  import opened Wrappers
  import opened JsNumber
  import opened Speedline

  /** The errors the metric throws. */
  datatype MetricError = MissingFrame | ChangingScreenshots | NotSupportedInLantern {
    function Message(): string {
      match this
      case MissingFrame => "TypeError: Cannot read property 'getParsedImage' of undefined"
      case ChangingScreenshots => "Cannot measure changing screenshots"
      case NotSupportedInLantern => "Last Painted Hero not yet supported in Lantern"
    }
  }

  /** The observed metric: relative timing and absolute timestamp. */
  datatype Metric = Metric(timing: real, timestamp: real)

  /** The viewport dimensions artifact; only `innerWidth` is read. */
  datatype Viewport = Viewport(innerWidth: int)

  /** `computeSimulatedMetric` always throws. */
  function ComputeSimulatedMetric(): (r: Result<Metric, MetricError>)
    ensures r.Failure? && r.error.Message() == "Last Painted Hero not yet supported in Lantern"
  {
    Failure(NotSupportedInLantern)
  }

  /** Each coordinate of the hero element multiplied by the factor and rounded on its own. */
  function Scale(hero: Region, multiplier: real): Region
  {
    Region(Round(hero.x as real * multiplier), Round(hero.y as real * multiplier),
           Round(hero.width as real * multiplier), Round(hero.height as real * multiplier))
  }

  /** `imageData.width / viewport.innerWidth` of the first analyzed frame. */
  function Multiplier(first: Image, viewport: Viewport): real
    requires viewport.innerWidth > 0
  {
    first.width as real / viewport.innerWidth as real
  }

  /**
   * The scan of the pair ending in a frame whose screenshot has width `stride`: the
   * bounds and channel count come from the first analyzed screenshot.
   */
  function BoxFor(first: Image, scaled: Region, stride: int): ScanBox
    requires first.width > 0 && first.height > 0
  {
    ScanBox(scaled.x, Min(first.width, scaled.x + scaled.width),
            scaled.y, Min(first.height, scaled.y + scaled.height),
            Channels(first), stride)
  }

  /** Pair (i-1, i) is compared: its progress changed. */
  predicate Compared(fs: seq<Frame>, i: int)
    requires 1 <= i < |fs|
  {
    fs[i].progress != fs[i - 1].progress
  }

  /** Pair (i-1, i) is compared and some byte of the scaled hero rectangle changed. */
  ghost predicate Changed(fs: seq<Frame>, i: int, scaled: Region)
    requires 1 <= i < |fs| && ValidScreenshots(fs)
  {
    Compared(fs, i) &&
    RegionDiffers(fs[i - 1].image.data, fs[i].image.data, BoxFor(fs[0].image, scaled, fs[i].image.width))
  }

  ghost function ChangedFlags(fs: seq<Frame>, scaled: Region): (flags: seq<bool>)
    requires ValidScreenshots(fs)
    ensures |flags| == |fs|
    ensures forall i :: 1 <= i < |fs| ==> flags[i] == Changed(fs, i, scaled)
  {
    seq(|fs|, i requires 0 <= i < |fs| => 1 <= i && Changed(fs, i, scaled))
  }

  /** Some compared pair joins screenshots of different widths. */
  ghost predicate WidthMismatch(fs: seq<Frame>) {
    exists i :: 1 <= i < |fs| && Compared(fs, i) && fs[i].image.width != fs[i - 1].image.width
  }

  /** What `findLastChangedTiming` computes. */
  ghost function Timing(speedline: SpeedlineData, hero: Region, viewport: Viewport): Result<real, MetricError>
    requires viewport.innerWidth > 0 && ValidScreenshots(Analyzed(speedline.frames))
  {
    TimingOf(Analyzed(speedline.frames), speedline.beginning, hero, viewport)
  }

  /** The same, stated over the analyzed frames `fs`. */
  ghost function TimingOf(fs: seq<Frame>, beginning: real, hero: Region, viewport: Viewport): Result<real, MetricError>
    requires viewport.innerWidth > 0 && ValidScreenshots(fs)
  {
    if |fs| == 0 then Failure(MissingFrame)
    else if WidthMismatch(fs) then Failure(ChangingScreenshots)
    else
      var scaled := ScaledHero(fs, hero, viewport);
      Success(LastFlagged(fs, ChangedFlags(fs, scaled), |fs|, beginning) - beginning)
  }

  /** The hero rectangle in the pixels of the first analyzed screenshot. */
  function ScaledHero(fs: seq<Frame>, hero: Region, viewport: Viewport): Region
    requires |fs| > 0 && viewport.innerWidth > 0
  {
    Scale(hero, Multiplier(fs[0].image, viewport))
  }

  /** `findLastChangedTiming(speedline, heroElement, viewport)` */
  method FindLastChangedTiming(speedline: SpeedlineData, hero: Region, viewport: Viewport)
    returns (r: Result<real, MetricError>)
    requires viewport.innerWidth > 0 && ValidScreenshots(Analyzed(speedline.frames))
    ensures r == Timing(speedline, hero, viewport)
  {
    var analyzedFrames := Analyzed(speedline.frames);
    var lastChangedTs := speedline.beginning;
    if |analyzedFrames| == 0 {
      return Failure(MissingFrame);
    }
    var imageData := analyzedFrames[0].image;
    var multiplier := Multiplier(imageData, viewport);
    var scaledHero := Scale(hero, multiplier);
    // The bounds of the scan are fixed by the first analyzed screenshot.
    var xMax := Min(imageData.width, scaledHero.x + scaledHero.width);
    var yMax := Min(imageData.height, scaledHero.y + scaledHero.height);
    var channels := Channels(imageData);
    ghost var flags := ChangedFlags(analyzedFrames, scaledHero);

    var i := 1;
    while i < |analyzedFrames|
      invariant 1 <= i <= |analyzedFrames|
      invariant lastChangedTs == LastFlagged(analyzedFrames, flags, i, speedline.beginning)
      invariant forall k :: 1 <= k < i && Compared(analyzedFrames, k) ==>
        analyzedFrames[k].image.width == analyzedFrames[k - 1].image.width
    {
      var previousFrame := analyzedFrames[i - 1];
      var frame := analyzedFrames[i];
      if frame.progress != previousFrame.progress {
        var previousImageData := previousFrame.image;
        var currentImageData := frame.image;
        if previousImageData.width != currentImageData.width {
          assert WidthMismatch(analyzedFrames) by {
            assert Compared(analyzedFrames, i);
          }
          return Failure(ChangingScreenshots);
        }
        var changed := ScanRegion(previousImageData.data, currentImageData.data,
                                  ScanBox(scaledHero.x, xMax, scaledHero.y, yMax, channels, currentImageData.width));
        assert BoxFor(imageData, scaledHero, currentImageData.width)
          == ScanBox(scaledHero.x, xMax, scaledHero.y, yMax, channels, currentImageData.width);
        assert changed == flags[i];
        if changed {
          lastChangedTs := frame.timestamp;
        }
      }
      i := i + 1;
    }
    assert !WidthMismatch(analyzedFrames);
    return Success(lastChangedTs - speedline.beginning);
  }

  /** Per-hero timings in hero order; the first thrown error aborts the map. */
  ghost function Timings(speedline: SpeedlineData, heroes: seq<Region>, viewport: Viewport): (r: Result<seq<real>, MetricError>)
    requires viewport.innerWidth > 0 && ValidScreenshots(Analyzed(speedline.frames))
    ensures r.Success? ==> |r.value| == |heroes|
    ensures r.Success? ==> forall i :: 0 <= i < |heroes| ==> Timing(speedline, heroes[i], viewport) == Success(r.value[i])
    ensures r.Failure? ==> exists i :: 0 <= i < |heroes| && Timing(speedline, heroes[i], viewport) == Failure(r.error)
  {
    if heroes == [] then Success([])
    else
      match Timing(speedline, heroes[0], viewport)
      case Failure(e) => Failure(e)
      case Success(t) =>
        match Timings(speedline, heroes[1..], viewport)
        case Failure(e) => Failure(e)
        case Success(ts) => Success([t] + ts)
  }

  /**
   * `computeObservedMetric`: the largest per-hero timing, and the rounded absolute
   * timestamp `navigationStart + timing * 1000`.
   */
  ghost function ComputeObservedMetric(speedline: SpeedlineData, heroes: seq<Region>, viewport: Viewport,
                                       navigationStart: real): (r: Result<Metric, MetricError>)
    requires |heroes| > 0
    requires viewport.innerWidth > 0 && ValidScreenshots(Analyzed(speedline.frames))
    ensures r.Success? ==> forall i :: 0 <= i < |heroes| ==>
      Timing(speedline, heroes[i], viewport).Success? && Timing(speedline, heroes[i], viewport).value <= r.value.timing
    ensures r.Success? ==> exists i :: 0 <= i < |heroes| && Timing(speedline, heroes[i], viewport) == Success(r.value.timing)
    ensures r.Success? ==> r.value.timestamp == Round(navigationStart + r.value.timing * 1000.0) as real
    ensures r.Failure? ==> exists i :: 0 <= i < |heroes| && Timing(speedline, heroes[i], viewport) == Failure(r.error)
  {
    match Timings(speedline, heroes, viewport)
    case Failure(e) => Failure(e)
    case Success(ts) =>
      var timing := MaxOf(ts);
      Success(Metric(timing, Round(navigationStart + timing * 1000.0) as real))
  }

  /** The timing is 0 when no compared pair changes inside the scaled hero rectangle. */
  lemma {:induction false} TimingWithoutChange(speedline: SpeedlineData, hero: Region, viewport: Viewport)
    requires viewport.innerWidth > 0 && ValidScreenshots(Analyzed(speedline.frames))
    requires var fs := Analyzed(speedline.frames);
      |fs| > 0 && !WidthMismatch(fs) &&
      forall k :: 1 <= k < |fs| ==> !Changed(fs, k, ScaledHero(fs, hero, viewport))
    ensures Timing(speedline, hero, viewport) == Success(0.0)
  {
    var fs := Analyzed(speedline.frames);
    LastFlaggedNone(fs, ChangedFlags(fs, ScaledHero(fs, hero, viewport)), |fs|, speedline.beginning);
  }

  /**
   * Otherwise it is the timestamp of the last analyzed frame that changed, minus
   * `beginning`.
   */
  lemma {:induction false} TimingAtLastChange(speedline: SpeedlineData, hero: Region, viewport: Viewport, k: nat)
    requires viewport.innerWidth > 0 && ValidScreenshots(Analyzed(speedline.frames))
    requires var fs := Analyzed(speedline.frames);
      1 <= k < |fs| && !WidthMismatch(fs) &&
      Changed(fs, k, ScaledHero(fs, hero, viewport)) &&
      forall j :: k < j < |fs| ==> !Changed(fs, j, ScaledHero(fs, hero, viewport))
    ensures Timing(speedline, hero, viewport) == Success(Analyzed(speedline.frames)[k].timestamp - speedline.beginning)
  {
    var fs := Analyzed(speedline.frames);
    LastFlaggedLatest(fs, ChangedFlags(fs, ScaledHero(fs, hero, viewport)), |fs|, k, speedline.beginning);
  }

  /**
   * The errors: a missing first frame exactly when every frame is interpolated, and a
   * width error only for a compared pair, so never when all screenshots share a width.
   */
  lemma {:induction false} ErrorCases(speedline: SpeedlineData, hero: Region, viewport: Viewport)
    requires viewport.innerWidth > 0 && ValidScreenshots(Analyzed(speedline.frames))
    ensures Timing(speedline, hero, viewport) == Failure(MissingFrame) <==>
      forall i :: 0 <= i < |speedline.frames| ==> speedline.frames[i].interpolated
    ensures Timing(speedline, hero, viewport) == Failure(ChangingScreenshots) ==>
      exists i :: 1 <= i < |Analyzed(speedline.frames)| && Compared(Analyzed(speedline.frames), i)
    ensures (forall i :: 0 <= i < |speedline.frames| ==> speedline.frames[i].image.width == speedline.frames[0].image.width) ==>
      Timing(speedline, hero, viewport) != Failure(ChangingScreenshots)
  {
    var frames := speedline.frames;
    var fs := Analyzed(frames);
    AnalyzedMembers(frames);
    if |fs| > 0 {
      assert fs[0] in frames && !fs[0].interpolated;
      var i :| 0 <= i < |frames| && frames[i] == fs[0];
      assert !frames[i].interpolated;
    }
    if |fs| == 0 {
      forall i | 0 <= i < |frames| ensures frames[i].interpolated {
        assert frames[i] in frames;
      }
    }
    if forall i :: 0 <= i < |frames| ==> frames[i].image.width == frames[0].image.width {
      forall i | 0 <= i < |fs| ensures fs[i].image.width == frames[0].image.width {
        assert fs[i] in frames;
      }
    }
  }

  /** Inserting an interpolated frame anywhere leaves the result unchanged. */
  lemma {:induction false} TimingIgnoresInterpolated(speedline: SpeedlineData, hero: Region, viewport: Viewport, k: nat, f: Frame)
    requires viewport.innerWidth > 0 && ValidScreenshots(Analyzed(speedline.frames))
    requires k <= |speedline.frames| && f.interpolated
    ensures var inserted := SpeedlineData(speedline.beginning, speedline.frames[..k] + [f] + speedline.frames[k..]);
      Analyzed(inserted.frames) == Analyzed(speedline.frames) &&
      Timing(inserted, hero, viewport) == Timing(speedline, hero, viewport)
  {
    AnalyzedIgnoresInterpolated(speedline.frames, k, f);
  }

  /**
   * A pair with equal progress is never compared: when no analyzed pair changes its
   * progress the result is 0, whatever the screenshots hold.
   */
  lemma {:induction false} EqualProgressIsSkipped(speedline: SpeedlineData, hero: Region, viewport: Viewport)
    requires viewport.innerWidth > 0 && ValidScreenshots(Analyzed(speedline.frames))
    requires |Analyzed(speedline.frames)| > 0
    requires forall i :: 1 <= i < |Analyzed(speedline.frames)| ==> !Compared(Analyzed(speedline.frames), i)
    ensures Timing(speedline, hero, viewport) == Success(0.0)
  {
    TimingWithoutChange(speedline, hero, viewport);
  }

  /** A scaled rectangle that starts outside the first screenshot is never scanned. */
  lemma {:induction false} RegionOutsideImage(speedline: SpeedlineData, hero: Region, viewport: Viewport)
    requires viewport.innerWidth > 0 && ValidScreenshots(Analyzed(speedline.frames))
    requires |Analyzed(speedline.frames)| > 0 && !WidthMismatch(Analyzed(speedline.frames))
    requires var fs := Analyzed(speedline.frames);
      var scaled := ScaledHero(fs, hero, viewport);
      scaled.x >= fs[0].image.width || scaled.y >= fs[0].image.height
    ensures Timing(speedline, hero, viewport) == Success(0.0)
  {
    var fs := Analyzed(speedline.frames);
    var scaled := ScaledHero(fs, hero, viewport);
    forall k | 1 <= k < |fs| ensures !Changed(fs, k, scaled) {
      var box := BoxFor(fs[0].image, scaled, fs[k].image.width);
      assert forall x, y, c :: !InBox(box, x, y, c);
    }
    TimingWithoutChange(speedline, hero, viewport);
  }

  /** When every analyzed frame is at or after `beginning`, the timing is not negative. */
  lemma {:induction false} TimingNonNegative(speedline: SpeedlineData, hero: Region, viewport: Viewport)
    requires viewport.innerWidth > 0 && ValidScreenshots(Analyzed(speedline.frames))
    requires forall i :: 0 <= i < |Analyzed(speedline.frames)| ==> Analyzed(speedline.frames)[i].timestamp >= speedline.beginning
    ensures Timing(speedline, hero, viewport).Success? ==> Timing(speedline, hero, viewport).value >= 0.0
  {
    var fs := Analyzed(speedline.frames);
    if |fs| > 0 && !WidthMismatch(fs) {
      LastFlaggedBounded(fs, ChangedFlags(fs, ScaledHero(fs, hero, viewport)), |fs|, speedline.beginning);
    }
  }
}
