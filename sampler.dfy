// The sampler interface's camera sample and `SamplerState`, the per-pixel
// bookkeeping a pixel sampler keeps: the sample number within the pixel and
// the offsets into the requested sample arrays.
module Sampler {
  import opened Geom

  /** `CameraSample`: a film position, a lens position and a time. */
  datatype CameraSample = CameraSample(pFilm: Vec2, pLens: Vec2, time: real)

  /** `p_raster.cast::<Float>()` */
  function ToFilm(p: Point2i): Vec2 {
    Vec2(p.x as real, p.y as real)
  }

  /** `SamplerState` */
  class SamplerState {
    var samplesPerPixel: nat
    var currentPixel: Point2i
    var currentPixelSampleNum: nat
    var sampleArray1d: seq<seq<real>>
    var sampleArray2d: seq<seq<Vec2>>
    var samples1dArraySizes: seq<nat>
    var samples2dArraySizes: seq<nat>
    var array1dOffset: nat
    var array2dOffset: nat

    /** Every requested array has its length recorded, in the same order. */
    predicate Valid()
      reads this
    {
      |sampleArray1d| == |samples1dArraySizes| && |sampleArray2d| == |samples2dArraySizes|
    }

    /** `SamplerState::new`: sample 0 of pixel (0, 0), no arrays, both offsets 0. */
    constructor (samplesPerPixel: nat)
      ensures Valid()
      ensures this.samplesPerPixel == samplesPerPixel && currentPixel == Point2i(0, 0)
      ensures currentPixelSampleNum == 0 && array1dOffset == 0 && array2dOffset == 0
      ensures sampleArray1d == [] && sampleArray2d == [] && samples1dArraySizes == [] && samples2dArraySizes == []
    {
      this.samplesPerPixel := samplesPerPixel;
      currentPixel := Point2i(0, 0);
      currentPixelSampleNum := 0;
      sampleArray1d := [];
      sampleArray2d := [];
      samples1dArraySizes := [];
      samples2dArraySizes := [];
      array1dOffset := 0;
      array2dOffset := 0;
    }

    /** `start_pixel`: records the pixel and restarts its sample number and both offsets. */
    method StartPixel(p: Point2i)
      modifies this
      ensures currentPixel == p && currentPixelSampleNum == 0 && array1dOffset == 0 && array2dOffset == 0
      ensures samplesPerPixel == old(samplesPerPixel)
      ensures sampleArray1d == old(sampleArray1d) && sampleArray2d == old(sampleArray2d)
      ensures samples1dArraySizes == old(samples1dArraySizes) && samples2dArraySizes == old(samples2dArraySizes)
    {
      currentPixel := p;
      currentPixelSampleNum := 0;
      array1dOffset := 0;
      array2dOffset := 0;
    }

    /** `start_next_sample`: the next sample number, and whether it is still below the sample count. */
    method StartNextSample() returns (more: bool)
      modifies this
      ensures currentPixelSampleNum == old(currentPixelSampleNum) + 1
      ensures more <==> currentPixelSampleNum < samplesPerPixel
      ensures array1dOffset == 0 && array2dOffset == 0
      ensures samplesPerPixel == old(samplesPerPixel) && currentPixel == old(currentPixel)
      ensures sampleArray1d == old(sampleArray1d) && sampleArray2d == old(sampleArray2d)
      ensures samples1dArraySizes == old(samples1dArraySizes) && samples2dArraySizes == old(samples2dArraySizes)
    {
      array1dOffset := 0;
      array2dOffset := 0;
      currentPixelSampleNum := currentPixelSampleNum + 1;
      more := currentPixelSampleNum < samplesPerPixel;
    }

    /** `request_1d_array`: records the length and adds an (empty) array for it. */
    method Request1dArray(len: nat)
      requires Valid()
      modifies this
      ensures Valid()
      ensures samples1dArraySizes == old(samples1dArraySizes) + [len] && sampleArray1d == old(sampleArray1d) + [[]]
      ensures sampleArray2d == old(sampleArray2d) && samples2dArraySizes == old(samples2dArraySizes)
      ensures samplesPerPixel == old(samplesPerPixel) && currentPixel == old(currentPixel)
      ensures currentPixelSampleNum == old(currentPixelSampleNum)
      ensures array1dOffset == old(array1dOffset) && array2dOffset == old(array2dOffset)
    {
      samples1dArraySizes := samples1dArraySizes + [len];
      sampleArray1d := sampleArray1d + [[]];
    }

    /** `request_2d_array` */
    method Request2dArray(len: nat)
      requires Valid()
      modifies this
      ensures Valid()
      ensures samples2dArraySizes == old(samples2dArraySizes) + [len] && sampleArray2d == old(sampleArray2d) + [[]]
      ensures sampleArray1d == old(sampleArray1d) && samples1dArraySizes == old(samples1dArraySizes)
      ensures samplesPerPixel == old(samplesPerPixel) && currentPixel == old(currentPixel)
      ensures currentPixelSampleNum == old(currentPixelSampleNum)
      ensures array1dOffset == old(array1dOffset) && array2dOffset == old(array2dOffset)
    {
      samples2dArraySizes := samples2dArraySizes + [len];
      sampleArray2d := sampleArray2d + [[]];
    }

    /**
     * `get_1d_array(len)`: the current sample's block of `len` entries of the
     * array at the 1D offset; the offset moves on to the next array. The
     * slice panics unless the array exists and holds the block.
     */
    method Get1dArray(len: nat) returns (a: seq<real>)
      requires array1dOffset < |sampleArray1d|
      requires (currentPixelSampleNum + 1) * len <= |sampleArray1d[array1dOffset]|
      modifies this
      ensures |a| == len
      ensures forall j :: 0 <= j < len ==>
        a[j] == old(sampleArray1d[array1dOffset])[old(currentPixelSampleNum) * len + j]
      ensures array1dOffset == old(array1dOffset) + 1 && array2dOffset == old(array2dOffset)
      ensures samplesPerPixel == old(samplesPerPixel) && currentPixel == old(currentPixel)
      ensures currentPixelSampleNum == old(currentPixelSampleNum)
      ensures sampleArray1d == old(sampleArray1d) && sampleArray2d == old(sampleArray2d)
      ensures samples1dArraySizes == old(samples1dArraySizes) && samples2dArraySizes == old(samples2dArraySizes)
    {
      var n := currentPixelSampleNum;
      a := sampleArray1d[array1dOffset][n * len .. (n + 1) * len];
      array1dOffset := array1dOffset + 1;
    }

    /** `get_2d_array(len)`: the same block of the array at the 2D offset. */
    method Get2dArray(len: nat) returns (a: seq<Vec2>)
      requires array2dOffset < |sampleArray2d|
      requires (currentPixelSampleNum + 1) * len <= |sampleArray2d[array2dOffset]|
      modifies this
      ensures |a| == len
      ensures forall j :: 0 <= j < len ==>
        a[j] == old(sampleArray2d[array2dOffset])[old(currentPixelSampleNum) * len + j]
      ensures array2dOffset == old(array2dOffset) + 1 && array1dOffset == old(array1dOffset)
      ensures samplesPerPixel == old(samplesPerPixel) && currentPixel == old(currentPixel)
      ensures currentPixelSampleNum == old(currentPixelSampleNum)
      ensures sampleArray1d == old(sampleArray1d) && sampleArray2d == old(sampleArray2d)
      ensures samples1dArraySizes == old(samples1dArraySizes) && samples2dArraySizes == old(samples2dArraySizes)
    {
      var n := currentPixelSampleNum;
      a := sampleArray2d[array2dOffset][n * len .. (n + 1) * len];
      array2dOffset := array2dOffset + 1;
    }
  }

  /**
   * The render loop's use of a sampler on one pixel: `start_pixel`, then
   * `while start_next_sample()`. With `SamplerState`'s strict comparison the
   * body runs one time fewer than the sample count (and never for a count of 0).
   */
  method PixelLoopCount(s: SamplerState, p: Point2i) returns (count: nat)
    modifies s
    ensures count == if s.samplesPerPixel == 0 then 0 else s.samplesPerPixel - 1
    ensures s.samplesPerPixel == old(s.samplesPerPixel) && s.currentPixel == p
  {
    s.StartPixel(p);
    count := 0;
    var more := s.StartNextSample();
    while more
      invariant s.samplesPerPixel == old(s.samplesPerPixel) && s.currentPixel == p
      invariant 1 <= s.currentPixelSampleNum && count == s.currentPixelSampleNum - 1
      invariant more <==> s.currentPixelSampleNum < s.samplesPerPixel
      invariant s.currentPixelSampleNum <= s.samplesPerPixel || s.currentPixelSampleNum == 1
      decreases s.samplesPerPixel - s.currentPixelSampleNum
    {
      count := count + 1;
      more := s.StartNextSample();
    }
  }
}
