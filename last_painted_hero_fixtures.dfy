/**
 * The fixture of lighthouse-core/test/computed/metrics/last-painted-hero-test.js: six 2x2
 * one-channel screenshots at progress 0, 20, ..., 100 and timestamps 0, 1000, ..., 5000.
 * Frame k has its first min(k, 4) pixels on, in raster order:
 * [0,0,0,0], [1,0,0,0], [1,1,0,0], [1,1,1,0], [1,1,1,1], [1,1,1,1].
 * The lemmas give the results both versions compute on it.
 */
module LastPaintedHeroFixtures {
  import opened Wrappers
  import opened JsNumber
  import opened Speedline
  import LastPaintedHero
  import LastPaintedHeroGather

  /** A 2x2 screenshot whose first `on` pixels are 1 and the rest 0. */
  function Shot(on: nat): Image {
    Image(2, 2, seq(4, i => if i < on then 1 else 0))
  }

  function TestFrames(): seq<Frame> {
    seq(6, k requires 0 <= k < 6 => Frame(20.0 * k as real, 1000.0 * k as real, false, Shot(Min(k, 4))))
  }

  function TestSpeedline(beginning: real): SpeedlineData {
    SpeedlineData(beginning, TestFrames())
  }

  lemma {:induction false} TestFramesAnalyzed()
    ensures ValidScreenshots(TestFrames())
    ensures Analyzed(TestFrames()) == TestFrames()
  {
    AnalyzedKeepsRealFrames(TestFrames());
  }

  /** Pixel k-1, the one that turns on in frame k, lies in the one-channel box. */
  predicate Covers(box: ScanBox, k: int) {
    InBox(box, (k - 1) % 2, (k - 1) / 2, 0)
  }

  /**
   * Between frames k-1 and k exactly pixel k-1 turns on (none after frame 4), so a pair
   * differs inside a one-channel, stride-2 box within the image exactly when that pixel
   * lies in the box.
   */
  lemma {:induction false} PairDiffersAt(k: nat, box: ScanBox)
    requires 1 <= k < 6 && box.stride == 2 && box.channels == 1.0
    requires 0 <= box.x0 && box.xMax <= 2 && 0 <= box.y0 && box.yMax <= 2
    ensures RegionDiffers(TestFrames()[k - 1].image.data, TestFrames()[k].image.data, box) <==>
      k <= 4 && Covers(box, k)
  {
    var prev := TestFrames()[k - 1].image.data;
    var cur := TestFrames()[k].image.data;
    if k <= 4 && Covers(box, k) {
      assert ByteDiffers(prev, cur, 2, (k - 1) % 2, (k - 1) / 2, 0);
    }
    if RegionDiffers(prev, cur, box) {
      var x, y, c :| InBox(box, x, y, c) && ByteDiffers(prev, cur, box.stride, x, y, c);
      assert c == 0;
      assert prev[2 * y + x] != cur[2 * y + x];
    }
  }

  /** The box both versions scan on the fixture for a rectangle in screenshot pixels. */
  function FixtureBox(r: Region): ScanBox {
    ScanBox(r.x, Min(2, r.x + r.width), r.y, Min(2, r.y + r.height), 1.0, 2)
  }

  /** In the scaling version, pair k changes exactly when its pixel is in the box. */
  lemma {:induction false} ScaledChangedAt(scaled: Region, k: nat)
    requires 1 <= k < 6 && 0 <= scaled.x && 0 <= scaled.y
    requires ValidScreenshots(TestFrames())
    ensures LastPaintedHero.Changed(TestFrames(), k, scaled) <==> k <= 4 && Covers(FixtureBox(scaled), k)
  {
    var fs := TestFrames();
    assert LastPaintedHero.Compared(fs, k);
    var box := LastPaintedHero.BoxFor(fs[0].image, scaled, fs[k].image.width);
    assert box == FixtureBox(scaled);
    PairDiffersAt(k, box);
  }

  /** In the gather version, the same. */
  lemma {:induction false} GatherChangedAt(hero: Region, k: nat)
    requires 1 <= k < 6 && 0 <= hero.x && 0 <= hero.y
    requires ValidScreenshots(TestFrames())
    ensures LastPaintedHeroGather.Changed(TestFrames(), k, hero) <==> k <= 4 && Covers(FixtureBox(hero), k)
  {
    var fs := TestFrames();
    assert LastPaintedHero.Compared(fs, k);
    var box := LastPaintedHeroGather.BoxFor(fs[k].image, hero);
    assert box == FixtureBox(hero);
    PairDiffersAt(k, box);
  }

  /**
   * The scaling version on the fixture: when pixel k-1 is the last pixel to turn on
   * inside the scaled rectangle, the result is frame k's timestamp minus `beginning`.
   */
  lemma {:induction false} ScaledResult(hero: Region, viewport: LastPaintedHero.Viewport, beginning: real, k: nat)
    requires viewport.innerWidth > 0
    requires var scaled := LastPaintedHero.Scale(hero, LastPaintedHero.Multiplier(Shot(0), viewport));
      0 <= scaled.x && 0 <= scaled.y && 1 <= k <= 4 && Covers(FixtureBox(scaled), k) &&
      forall j :: k < j <= 4 ==> !Covers(FixtureBox(scaled), j)
    ensures Analyzed(TestFrames()) == TestFrames() && ValidScreenshots(TestFrames())
    ensures LastPaintedHero.Timing(TestSpeedline(beginning), hero, viewport) == Success(1000.0 * k as real - beginning)
  {
    TestFramesAnalyzed();
    var fs := TestFrames();
    var scaled := LastPaintedHero.ScaledHero(fs, hero, viewport);
    assert !LastPaintedHero.WidthMismatch(fs);
    ScaledChangedAt(scaled, k);
    forall j | k < j < 6 ensures !LastPaintedHero.Changed(fs, j, scaled) {
      ScaledChangedAt(scaled, j);
    }
    LastPaintedHero.TimingAtLastChange(TestSpeedline(beginning), hero, viewport, k);
  }

  /** "should work when hero finishes early": 1000. */
  lemma HeroFinishesEarly()
    ensures Analyzed(TestFrames()) == TestFrames() && ValidScreenshots(TestFrames())
    ensures LastPaintedHero.Timing(TestSpeedline(0.0), Region(0, 0, 1, 1), LastPaintedHero.Viewport(2)) == Success(1000.0)
  {
    RoundOfInteger(0);
    RoundOfInteger(1);
    ScaledResult(Region(0, 0, 1, 1), LastPaintedHero.Viewport(2), 0.0, 1);
  }

  /** "should work when hero finishes late": 4000. */
  lemma HeroFinishesLate()
    ensures Analyzed(TestFrames()) == TestFrames() && ValidScreenshots(TestFrames())
    ensures LastPaintedHero.Timing(TestSpeedline(0.0), Region(1, 1, 1, 1), LastPaintedHero.Viewport(2)) == Success(4000.0)
  {
    RoundOfInteger(1);
    ScaledResult(Region(1, 1, 1, 1), LastPaintedHero.Viewport(2), 0.0, 4);
  }

  /** "should work when hero has larger area": 3000. */
  lemma HeroLargerArea()
    ensures Analyzed(TestFrames()) == TestFrames() && ValidScreenshots(TestFrames())
    ensures LastPaintedHero.Timing(TestSpeedline(0.0), Region(0, 0, 1, 2), LastPaintedHero.Viewport(2)) == Success(3000.0)
  {
    RoundOfInteger(0);
    RoundOfInteger(1);
    RoundOfInteger(2);
    ScaledResult(Region(0, 0, 1, 2), LastPaintedHero.Viewport(2), 0.0, 3);
  }

  /** "should baseline timestamps to speedline.beginning": 500. */
  lemma BaselinedToBeginning()
    ensures Analyzed(TestFrames()) == TestFrames() && ValidScreenshots(TestFrames())
    ensures LastPaintedHero.Timing(TestSpeedline(500.0), Region(0, 0, 1, 1), LastPaintedHero.Viewport(2)) == Success(500.0)
  {
    RoundOfInteger(0);
    RoundOfInteger(1);
    ScaledResult(Region(0, 0, 1, 1), LastPaintedHero.Viewport(2), 500.0, 1);
  }

  /** "should handle viewports with different size from screenshots": 2000, then 4000. */
  lemma LargerViewport()
    ensures Analyzed(TestFrames()) == TestFrames() && ValidScreenshots(TestFrames())
    ensures LastPaintedHero.Timing(TestSpeedline(0.0), Region(500, 0, 500, 500), LastPaintedHero.Viewport(1000)) == Success(2000.0)
    ensures LastPaintedHero.Timing(TestSpeedline(0.0), Region(500, 500, 500, 500), LastPaintedHero.Viewport(1000)) == Success(4000.0)
  {
    RoundOfInteger(0);
    RoundOfInteger(1);
    ScaledResult(Region(500, 0, 500, 500), LastPaintedHero.Viewport(1000), 0.0, 2);
    ScaledResult(Region(500, 500, 500, 500), LastPaintedHero.Viewport(1000), 0.0, 4);
  }

  /**
   * The gather version does not scale: on the same viewport case the rectangle starts at
   * screenshot pixel 500, outside the 2x2 screenshots, and the result is 0.
   */
  lemma GatherIgnoresViewport()
    ensures Analyzed(TestFrames()) == TestFrames() && ValidScreenshots(TestFrames())
    ensures LastPaintedHeroGather.Timing(TestSpeedline(0.0), Region(500, 0, 500, 500)) == 0.0
  {
    TestFramesAnalyzed();
    var fs := TestFrames();
    forall k | 1 <= k < 6 ensures !LastPaintedHeroGather.Changed(fs, k, Region(500, 0, 500, 500)) {
      GatherChangedAt(Region(500, 0, 500, 500), k);
    }
    LastPaintedHeroGather.TimingWithoutChange(TestSpeedline(0.0), Region(500, 0, 500, 500));
  }

  /**
   * Two screenshots of different widths: the scaling version throws, the gather version
   * compares them with the current screenshot's geometry and reports the change.
   */
  function ResizedFrames(): seq<Frame> {
    [ Frame(0.0, 0.0, false, Image(2, 2, [0, 0, 0, 0])),
      Frame(20.0, 1000.0, false, Image(1, 4, [1, 1, 1, 1])) ]
  }

  lemma ResizedScreenshots()
    ensures Analyzed(ResizedFrames()) == ResizedFrames() && ValidScreenshots(ResizedFrames())
    ensures LastPaintedHero.Timing(SpeedlineData(0.0, ResizedFrames()), Region(0, 0, 1, 1), LastPaintedHero.Viewport(2)) ==
      Failure(LastPaintedHero.ChangingScreenshots)
    ensures LastPaintedHeroGather.Timing(SpeedlineData(0.0, ResizedFrames()), Region(0, 0, 1, 1)) == 1000.0
  {
    var fs := ResizedFrames();
    AnalyzedKeepsRealFrames(fs);
    assert LastPaintedHero.Compared(fs, 1);
    assert LastPaintedHero.WidthMismatch(fs);
    var box := LastPaintedHeroGather.BoxFor(fs[1].image, Region(0, 0, 1, 1));
    assert InBox(box, 0, 0, 0) && ByteDiffers(fs[0].image.data, fs[1].image.data, box.stride, 0, 0, 0);
    LastPaintedHeroGather.TimingAtLastChange(SpeedlineData(0.0, fs), Region(0, 0, 1, 1), 1);
  }
}
