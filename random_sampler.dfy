// `RandomSampler`: independent uniform draws from a seeded generator. The
// generator is a stream of draws in [0, 1) chosen by the seed; the sampler
// keeps the position of its next draw and a per-pixel sample counter.
module RandomSampler {
  import opened Geom
  import opened Sampler

  /** A generator's output: every draw lies in [0, 1). */
  ghost predicate UnitStream(rng: nat -> real) {
    forall i :: 0.0 <= rng(i) < 1.0
  }

  /** Seeding: every seed gives a stream of unit draws. */
  ghost predicate UnitSeeding(seeded: nat -> (nat -> real)) {
    forall seed :: UnitStream(seeded(seed))
  }

  class RandomSampler {
    var samplesPerPixel: nat
    var rng: nat -> real
    var drawn: nat
    var currentPixelSampleNum: nat

    ghost predicate Valid()
      reads this
    {
      UnitStream(rng)
    }

    /** `RandomSampler::new_with_seed`: the seeded stream from its start, and sample counter 0. */
    constructor NewWithSeed(samplesPerPixel: nat, seed: nat, seeded: nat -> (nat -> real))
      requires UnitSeeding(seeded)
      ensures Valid()
      ensures this.samplesPerPixel == samplesPerPixel && rng == seeded(seed) && drawn == 0 && currentPixelSampleNum == 0
    {
      this.samplesPerPixel := samplesPerPixel;
      rng := seeded(seed);
      drawn := 0;
      currentPixelSampleNum := 0;
    }

    /** `start_pixel`: the pixel itself is ignored; the counter restarts. */
    method StartPixel(pixel: Point2i)
      modifies this
      ensures currentPixelSampleNum == 0
      ensures samplesPerPixel == old(samplesPerPixel) && rng == old(rng) && drawn == old(drawn)
    {
      currentPixelSampleNum := 0;
    }

    /** `start_next_sample`: counts one more sample and reports whether it is at most the sample count. */
    method StartNextSample() returns (more: bool)
      modifies this
      ensures currentPixelSampleNum == old(currentPixelSampleNum) + 1
      ensures more <==> currentPixelSampleNum <= samplesPerPixel
      ensures samplesPerPixel == old(samplesPerPixel) && rng == old(rng) && drawn == old(drawn)
    {
      currentPixelSampleNum := currentPixelSampleNum + 1;
      more := currentPixelSampleNum <= samplesPerPixel;
    }

    /** `get_1d`: the next draw. */
    method Get1d() returns (x: real)
      requires Valid()
      modifies this
      ensures x == old(rng(drawn)) && 0.0 <= x < 1.0
      ensures drawn == old(drawn) + 1
      ensures samplesPerPixel == old(samplesPerPixel) && rng == old(rng) && currentPixelSampleNum == old(currentPixelSampleNum)
    {
      x := rng(drawn);
      drawn := drawn + 1;
    }

    /** `get_2d`: the next two draws, x first. */
    method Get2d() returns (p: Vec2)
      requires Valid()
      modifies this
      ensures p == Vec2(old(rng(drawn)), old(rng(drawn + 1)))
      ensures 0.0 <= p.x < 1.0 && 0.0 <= p.y < 1.0
      ensures drawn == old(drawn) + 2
      ensures samplesPerPixel == old(samplesPerPixel) && rng == old(rng) && currentPixelSampleNum == old(currentPixelSampleNum)
    {
      var x := Get1d();
      var y := Get1d();
      p := Vec2(x, y);
    }

    /** `clone_with_seed`: a fresh sampler with the same sample count, a new stream and counter 0. */
    method CloneWithSeed(seed: nat, seeded: nat -> (nat -> real)) returns (s: RandomSampler)
      requires UnitSeeding(seeded)
      ensures fresh(s) && s.Valid()
      ensures s.samplesPerPixel == samplesPerPixel && s.rng == seeded(seed) && s.drawn == 0 && s.currentPixelSampleNum == 0
    {
      s := new RandomSampler.NewWithSeed(samplesPerPixel, seed, seeded);
    }

    /** `samples_per_pixel()` */
    function SamplesPerPixel(): (n: nat)
      reads this
      ensures n == samplesPerPixel
    {
      samplesPerPixel
    }

    /**
     * `get_camera_sample`, the interface's default: a 2D draw offsets the
     * pixel on the film, then a 2D lens draw, then a 1D time draw. The film
     * position stays inside the pixel's unit square.
     */
    method GetCameraSample(pRaster: Point2i) returns (cs: CameraSample)
      requires Valid()
      modifies this
      ensures var d := old(drawn);
        cs.pFilm == ToFilm(pRaster).Add(Vec2(rng(d), rng(d + 1))) &&
        cs.pLens == Vec2(rng(d + 2), rng(d + 3)) && cs.time == rng(d + 4)
      ensures InPixel(cs.pFilm, pRaster)
      ensures drawn == old(drawn) + 5
      ensures samplesPerPixel == old(samplesPerPixel) && rng == old(rng) && currentPixelSampleNum == old(currentPixelSampleNum)
    {
      var offset := Get2d();
      var pFilm := ToFilm(pRaster).Add(offset);
      var pLens := Get2d();
      var time := Get1d();
      cs := CameraSample(pFilm, pLens, time);
    }
  }

  /** A film position inside the unit square of a raster pixel. */
  predicate InPixel(p: Vec2, pixel: Point2i) {
    pixel.x as real <= p.x < pixel.x as real + 1.0 && pixel.y as real <= p.y < pixel.y as real + 1.0
  }

  /**
   * The render loop on one pixel (`start_pixel`, then `while
   * start_next_sample()` taking a camera sample each time): with the
   * sampler's `<=` the loop takes exactly the configured number of samples,
   * all inside the pixel.
   */
  method PixelSamples(s: RandomSampler, pixel: Point2i) returns (samples: seq<CameraSample>)
    requires s.Valid()
    modifies s
    ensures |samples| == s.samplesPerPixel == old(s.samplesPerPixel)
    ensures forall j :: 0 <= j < |samples| ==> InPixel(samples[j].pFilm, pixel)
    ensures s.drawn == old(s.drawn) + 5 * |samples|
  {
    s.StartPixel(pixel);
    samples := [];
    var more := s.StartNextSample();
    while more
      invariant s.Valid() && s.samplesPerPixel == old(s.samplesPerPixel)
      invariant 1 <= s.currentPixelSampleNum <= s.samplesPerPixel + 1 && |samples| == s.currentPixelSampleNum - 1
      invariant more <==> s.currentPixelSampleNum <= s.samplesPerPixel
      invariant forall j :: 0 <= j < |samples| ==> InPixel(samples[j].pFilm, pixel)
      invariant s.drawn == old(s.drawn) + 5 * |samples|
      decreases s.samplesPerPixel + 1 - s.currentPixelSampleNum
    {
      var cs := s.GetCameraSample(pixel);
      samples := samples + [cs];
      more := s.StartNextSample();
    }
  }
}
