/**
 * The older last-painted-hero metric of lighthouse-core/gather/computed/metrics: the hero
 * rectangle is used as screenshot pixels without scaling, the scan bounds are taken from
 * each compared frame, and screenshots of different widths are not rejected.
 */
module LastPaintedHeroGather {
  import opened Wrappers
  import opened JsNumber
  import opened Speedline
  import LastPaintedHero

  /** The observed metric: relative timing and (unrounded) absolute timestamp. */
  datatype Metric = Metric(timing: real, timestamp: real)

  /** `computeSimulatedMetric` always throws. */
  function ComputeSimulatedMetric(): (r: Result<Metric, LastPaintedHero.MetricError>)
    ensures r.Failure? && r.error.Message() == "Last Painted Hero not yet supported in Lantern"
  {
    Failure(LastPaintedHero.NotSupportedInLantern)
  }

  /** The scan of a pair: bounds, channel count and stride all from the current screenshot. */
  function BoxFor(current: Image, hero: Region): ScanBox
    requires current.width > 0 && current.height > 0
  {
    ScanBox(hero.x, Min(current.width, hero.x + hero.width),
            hero.y, Min(current.height, hero.y + hero.height),
            Channels(current), current.width)
  }

  /** Pair (i-1, i) has a progress change and some byte of the hero rectangle changed. */
  ghost predicate Changed(fs: seq<Frame>, i: int, hero: Region)
    requires 1 <= i < |fs| && ValidScreenshots(fs)
  {
    LastPaintedHero.Compared(fs, i) &&
    RegionDiffers(fs[i - 1].image.data, fs[i].image.data, BoxFor(fs[i].image, hero))
  }

  ghost function ChangedFlags(fs: seq<Frame>, hero: Region): (flags: seq<bool>)
    requires ValidScreenshots(fs)
    ensures |flags| == |fs|
    ensures forall i :: 1 <= i < |fs| ==> flags[i] == Changed(fs, i, hero)
  {
    seq(|fs|, i requires 0 <= i < |fs| => 1 <= i && Changed(fs, i, hero))
  }

  /** What this `findLastChangedTiming` computes, stated over the analyzed frames. */
  ghost function Timing(speedline: SpeedlineData, hero: Region): real
    requires ValidScreenshots(Analyzed(speedline.frames))
  {
    var fs := Analyzed(speedline.frames);
    LastFlagged(fs, ChangedFlags(fs, hero), |fs|, speedline.beginning) - speedline.beginning
  }

  /** `findLastChangedTiming(speedline, heroElement)` */
  method FindLastChangedTiming(speedline: SpeedlineData, hero: Region) returns (r: real)
    requires ValidScreenshots(Analyzed(speedline.frames))
    ensures r == Timing(speedline, hero)
  {
    var analyzedFrames := Analyzed(speedline.frames);
    var lastChangedTs := speedline.beginning;
    ghost var flags := ChangedFlags(analyzedFrames, hero);
    var i := 1;
    while i < |analyzedFrames|
      invariant 1 <= i && (i <= |analyzedFrames| || |analyzedFrames| == 0)
      invariant lastChangedTs == LastFlagged(analyzedFrames, flags, Min(i, |analyzedFrames|), speedline.beginning)
    {
      var previousFrame := analyzedFrames[i - 1];
      var frame := analyzedFrames[i];
      if frame.progress != previousFrame.progress {
        var previousImageData := previousFrame.image;
        var imageData := frame.image;
        // The bounds are recomputed from each compared screenshot.
        var xMax := Min(imageData.width, hero.x + hero.width);
        var yMax := Min(imageData.height, hero.y + hero.height);
        var channels := Channels(imageData);
        var changed := ScanRegion(previousImageData.data, imageData.data,
                                  ScanBox(hero.x, xMax, hero.y, yMax, channels, imageData.width));
        assert changed == flags[i];
        if changed {
          lastChangedTs := frame.timestamp;
        }
      }
      i := i + 1;
    }
    return lastChangedTs - speedline.beginning;
  }

  /** Per-hero timings, in hero order. */
  ghost function Timings(speedline: SpeedlineData, heroes: seq<Region>): (ts: seq<real>)
    requires ValidScreenshots(Analyzed(speedline.frames))
    ensures |ts| == |heroes|
    ensures forall i :: 0 <= i < |heroes| ==> ts[i] == Timing(speedline, heroes[i])
  {
    seq(|heroes|, i requires 0 <= i < |heroes| => Timing(speedline, heroes[i]))
  }

  /**
   * `computeObservedMetric`: the largest per-hero timing and the absolute timestamp
   * `navigationStart + timing * 1000`, not rounded.
   */
  ghost function ComputeObservedMetric(speedline: SpeedlineData, heroes: seq<Region>, navigationStart: real): (m: Metric)
    requires |heroes| > 0 && ValidScreenshots(Analyzed(speedline.frames))
    ensures forall i :: 0 <= i < |heroes| ==> Timing(speedline, heroes[i]) <= m.timing
    ensures exists i :: 0 <= i < |heroes| && Timing(speedline, heroes[i]) == m.timing
    ensures m.timestamp == navigationStart + m.timing * 1000.0
  {
    var timings := Timings(speedline, heroes);
    var timing := MaxOf(timings);
    Metric(timing, navigationStart + timing * 1000.0)
  }

  /** Every analyzed screenshot has the size and buffer length of the first one. */
  predicate SameDimensions(fs: seq<Frame>) {
    forall i :: 0 <= i < |fs| ==>
      fs[i].image.width == fs[0].image.width && fs[i].image.height == fs[0].image.height &&
      |fs[i].image.data| == |fs[0].image.data|
  }

  /**
   * Where the two versions agree: the viewport is as wide as the screenshots (the
   * multiplier is 1) and every analyzed screenshot has the same dimensions.
   */
  lemma {:induction false} VersionsAgree(speedline: SpeedlineData, hero: Region, viewport: LastPaintedHero.Viewport)
    requires ValidScreenshots(Analyzed(speedline.frames))
    requires |Analyzed(speedline.frames)| > 0
    requires viewport.innerWidth == Analyzed(speedline.frames)[0].image.width
    requires SameDimensions(Analyzed(speedline.frames))
    ensures viewport.innerWidth > 0
    ensures LastPaintedHero.Timing(speedline, hero, viewport) == Success(Timing(speedline, hero))
  {
    var fs := Analyzed(speedline.frames);
    var first := fs[0].image;
    assert LastPaintedHero.Multiplier(first, viewport) == 1.0;
    var scaled := LastPaintedHero.Scale(hero, 1.0);
    RoundOfInteger(hero.x);
    RoundOfInteger(hero.y);
    RoundOfInteger(hero.width);
    RoundOfInteger(hero.height);
    assert scaled == hero;
    assert !LastPaintedHero.WidthMismatch(fs);
    var f1 := LastPaintedHero.ChangedFlags(fs, scaled);
    var f2 := ChangedFlags(fs, hero);
    forall k | 1 <= k < |fs| ensures f1[k] == f2[k] {
      assert LastPaintedHero.BoxFor(first, scaled, fs[k].image.width) == BoxFor(fs[k].image, hero);
    }
    LastFlaggedSameFlags(fs, f1, f2, |fs|, speedline.beginning);
  }

  /** With zero or one analyzed frames nothing is compared and the timing is 0. */
  lemma {:induction false} FewFramesGiveZero(speedline: SpeedlineData, hero: Region)
    requires ValidScreenshots(Analyzed(speedline.frames)) && |Analyzed(speedline.frames)| <= 1
    ensures Timing(speedline, hero) == 0.0
  {
  }

  lemma NoFlags(fs: seq<Frame>, hero: Region, beginning: real)
    requires ValidScreenshots(fs)
    requires forall k :: 1 <= k < |fs| ==> !Changed(fs, k, hero)
    ensures LastFlagged(fs, ChangedFlags(fs, hero), |fs|, beginning) == beginning
  {
    LastFlaggedNone(fs, ChangedFlags(fs, hero), |fs|, beginning);
  }

  /** The timing is 0 when no compared pair changes inside the hero rectangle. */
  lemma {:induction false} TimingWithoutChange(speedline: SpeedlineData, hero: Region)
    requires ValidScreenshots(Analyzed(speedline.frames))
    requires forall k :: 1 <= k < |Analyzed(speedline.frames)| ==> !Changed(Analyzed(speedline.frames), k, hero)
    ensures Timing(speedline, hero) == 0.0
  {
    var fs := Analyzed(speedline.frames);
    NoFlags(fs, hero, speedline.beginning);
  }

  /** Otherwise it is the last changed frame's timestamp minus `beginning`; widths never matter. */
  lemma {:induction false} TimingAtLastChange(speedline: SpeedlineData, hero: Region, k: nat)
    requires ValidScreenshots(Analyzed(speedline.frames))
    requires var fs := Analyzed(speedline.frames);
      1 <= k < |fs| && Changed(fs, k, hero) &&
      forall j :: k < j < |fs| ==> !Changed(fs, j, hero)
    ensures Timing(speedline, hero) == Analyzed(speedline.frames)[k].timestamp - speedline.beginning
  {
    var fs := Analyzed(speedline.frames);
    LastFlaggedLatest(fs, ChangedFlags(fs, hero), |fs|, k, speedline.beginning);
  }

  /** Inserting an interpolated frame anywhere leaves the result unchanged. */
  lemma {:induction false} TimingIgnoresInterpolated(speedline: SpeedlineData, hero: Region, k: nat, f: Frame)
    requires ValidScreenshots(Analyzed(speedline.frames))
    requires k <= |speedline.frames| && f.interpolated
    ensures var inserted := SpeedlineData(speedline.beginning, speedline.frames[..k] + [f] + speedline.frames[k..]);
      Analyzed(inserted.frames) == Analyzed(speedline.frames) && Timing(inserted, hero) == Timing(speedline, hero)
  {
    AnalyzedIgnoresInterpolated(speedline.frames, k, f);
  }
}
