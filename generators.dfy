/**
 * The two generators of data_generator.py. Their configuration is fixed when
 * they are constructed and never changes, so each is a datatype; `load` is a
 * method over the shuffle permutation, the batch size and the files on disk.
 *
 * Files are a map from path to what reading that path gives; a path outside the
 * map is a missing file.
 */
module Generators {
  import opened Wrappers
  import opened Purposes
  import opened Paths
  import opened Batching
  import opened Loading
  import opened Pixels

  /**
   * `SentinelDataGenerator(dataset, descriptor, ..., clip)`. The output shapes,
   * the feature range and the resampling choices only parameterise rasterio and
   * scikit-learn and are not part of the model.
   */
  datatype SentinelDataGenerator = SentinelDataGenerator(dataset: string, descriptor: string, clip: Option<int>)
  {
    /**
     * `read_raster`: open the raster (missing: None), clip when `clip` is truthy,
     * then `normalize`, which stands for the per-channel MinMaxScaler and the
     * reordering to image axes.
     */
    static function ReadRaster(rasters: map<string, Raster>, path: string, normalize: Raster -> Raster, clip: Option<int>): (r: Option<Raster>)
      ensures r.Some? <==> path in rasters
      ensures r.Some? && !ClipEnabled(clip) ==> r.value == normalize(rasters[path])
      ensures r.Some? && clip.Some? && clip.value > 0 ==>
        exists k :: SameShape(k, rasters[path]) && ClippedTo(k, rasters[path], clip.value) && r.value == normalize(k)
      ensures r.Some? && clip.Some? && clip.value < 0 ==>
        exists k :: SameShape(k, rasters[path]) && AllValues(k, clip.value) && r.value == normalize(k)
    {
      if path !in rasters then None
      else
        var raw := rasters[path];
        if clip.Some? && clip.value > 0 then
          ClipBounds(raw, clip.value);
          Some(normalize(ClipStep(raw, clip)))
        else if clip.Some? && clip.value < 0 then
          ClipNegativeBound(raw, clip.value);
          Some(normalize(ClipStep(raw, clip)))
        else
          Some(normalize(ClipStep(raw, clip)))
    }

    /**
     * How `load` reads a row: the satellite image and the land-cover mask, both
     * through `read_raster` without a clip argument.
     */
    function Reader(purpose: Purpose, rasters: map<string, Raster>, normalize: Raster -> Raster): SampleReader<Raster>
    {
      SampleReader(
        id => SatelliteImagePath(dataset, purpose, id),
        id => LandcoverMaskPath(dataset, purpose, id),
        path => ReadRaster(rasters, path, normalize, None))
    }

    /**
     * A yielded pair for a chunk: satellite images and land-cover masks, one of
     * each per row of the chunk in row order, each the normalised raster of that
     * row's file with no clipping.
     */
    ghost predicate IsBatchOf(pair: Pair<Raster>, chunk: seq<int>, purpose: Purpose, rasters: map<string, Raster>, normalize: Raster -> Raster)
    {
      |pair.first| == |chunk| && |pair.second| == |chunk| &&
      forall i :: 0 <= i < |chunk| ==>
        SatelliteImagePath(dataset, purpose, chunk[i]) in rasters &&
        pair.first[i] == normalize(rasters[SatelliteImagePath(dataset, purpose, chunk[i])]) &&
        LandcoverMaskPath(dataset, purpose, chunk[i]) in rasters &&
        pair.second[i] == normalize(rasters[LandcoverMaskPath(dataset, purpose, chunk[i])])
    }

    /**
     * `load(batch, purpose, random_state)` on a manifest whose shuffle is `perm`:
     * the batches of the shuffled manifest in order, ceil(n / batch) of them when
     * every file exists, and otherwise those before the chunk where the first
     * missing file stops the generator. The configured `clip` plays no part.
     */
    method Load(purpose: Purpose, manifest: seq<int>, perm: seq<nat>, batch: int,
                rasters: map<string, Raster>, normalize: Raster -> Raster) returns (out: Outcome<Raster>)
      requires IsPermutation(perm, |manifest|)
      ensures batch == 0 ==> out == Outcome([], Some(ZeroBatchSize))
      ensures batch < 0 ==> out == Outcome([], None)
      ensures batch > 0 ==> |out.batches| <= CeilDiv(|manifest|, batch)
      ensures batch > 0 ==> forall k :: 0 <= k < |out.batches| ==>
        IsBatchOf(out.batches[k], Chunks(Shuffle(manifest, perm), batch).value[k], purpose, rasters, normalize)
      ensures batch > 0 && out.error.None? ==> |out.batches| == CeilDiv(|manifest|, batch)
      ensures batch > 0 ==> (out.error.None? <==> forall j :: 0 <= j < |manifest| ==>
        SatelliteImagePath(dataset, purpose, manifest[j]) in rasters &&
        LandcoverMaskPath(dataset, purpose, manifest[j]) in rasters)
      ensures batch > 0 && out.error.Some? ==>
        |out.batches| < CeilDiv(|manifest|, batch) &&
        out.error.value.MissingFile? && out.error.value.path !in rasters &&
        Some(out.error.value.path) ==
          FirstMissing(Reader(purpose, rasters, normalize), Chunks(Shuffle(manifest, perm), batch).value[|out.batches|])
    {
      var shuffled := Shuffle(manifest, perm);
      var src := Reader(purpose, rasters, normalize);
      out := LoadPairs(shuffled, batch, src);
      if batch > 0 {
        ShufflePermutes(manifest, perm);
        ReadableSameRows(src, shuffled, manifest);
        forall k | 0 <= k < |out.batches|
          ensures IsBatchOf(out.batches[k], Chunks(shuffled, batch).value[k], purpose, rasters, normalize)
        {
          assert PairOf(src, out.batches[k], Chunks(shuffled, batch).value[k]);
        }
        if out.error.Some? {
          var chunk := Chunks(shuffled, batch).value[|out.batches|];
          FirstMissingSpec(src, chunk);
        }
      }
    }
  }

  /** `RGBDataGenerator(dataset, descriptor)`. */
  datatype RGBDataGenerator = RGBDataGenerator(dataset: string, descriptor: string)
  {
    /** `read_raster`: `img_to_array(load_img(path))`, None for a missing file. */
    static function ReadImage(images: map<string, Image>, path: string): (r: Option<Image>)
      ensures r.Some? <==> path in images
      ensures r.Some? ==> r.value == images[path]
    {
      if path in images then Some(images[path]) else None
    }

    /** How `load` reads a row: the target image and the condition image. */
    function Reader(purpose: Purpose, images: map<string, Image>): SampleReader<Image>
    {
      SampleReader(
        id => TargetImagePath(dataset, purpose, id),
        id => ConditionImagePath(dataset, purpose, id),
        path => ReadImage(images, path))
    }

    /**
     * A yielded pair for a chunk: targets and conditions, one of each per row of
     * the chunk in row order, each the rescaled image of that row's file.
     */
    ghost predicate IsBatchOf(pair: Pair<Image>, chunk: seq<int>, purpose: Purpose, images: map<string, Image>)
    {
      |pair.first| == |chunk| && |pair.second| == |chunk| &&
      forall i :: 0 <= i < |chunk| ==>
        TargetImagePath(dataset, purpose, chunk[i]) in images &&
        pair.first[i] == RescaleImage(images[TargetImagePath(dataset, purpose, chunk[i])]) &&
        ConditionImagePath(dataset, purpose, chunk[i]) in images &&
        pair.second[i] == RescaleImage(images[ConditionImagePath(dataset, purpose, chunk[i])])
    }

    /**
     * `load(batch, purpose, random_state)` on a manifest whose shuffle is `perm`:
     * as for the Sentinel generator, with every yielded batch rescaled by
     * `/ 127.5 - 1.0` once all of its images are read.
     */
    method Load(purpose: Purpose, manifest: seq<int>, perm: seq<nat>, batch: int,
                images: map<string, Image>) returns (out: Outcome<Image>)
      requires IsPermutation(perm, |manifest|)
      ensures batch == 0 ==> out == Outcome([], Some(ZeroBatchSize))
      ensures batch < 0 ==> out == Outcome([], None)
      ensures batch > 0 ==> |out.batches| <= CeilDiv(|manifest|, batch)
      ensures batch > 0 ==> forall k :: 0 <= k < |out.batches| ==>
        IsBatchOf(out.batches[k], Chunks(Shuffle(manifest, perm), batch).value[k], purpose, images)
      ensures batch > 0 && out.error.None? ==> |out.batches| == CeilDiv(|manifest|, batch)
      ensures batch > 0 ==> (out.error.None? <==> forall j :: 0 <= j < |manifest| ==>
        TargetImagePath(dataset, purpose, manifest[j]) in images &&
        ConditionImagePath(dataset, purpose, manifest[j]) in images)
      ensures batch > 0 && out.error.Some? ==>
        |out.batches| < CeilDiv(|manifest|, batch) &&
        out.error.value.MissingFile? && out.error.value.path !in images &&
        Some(out.error.value.path) ==
          FirstMissing(Reader(purpose, images), Chunks(Shuffle(manifest, perm), batch).value[|out.batches|])
    {
      var shuffled := Shuffle(manifest, perm);
      var src := Reader(purpose, images);
      var raw := LoadPairs(shuffled, batch, src);
      var rescaled := seq(|raw.batches|, k requires 0 <= k < |raw.batches| =>
        Pair(RescaleStack(raw.batches[k].first), RescaleStack(raw.batches[k].second)));
      out := Outcome(rescaled, raw.error);
      if batch > 0 {
        ShufflePermutes(manifest, perm);
        ReadableSameRows(src, shuffled, manifest);
        forall k | 0 <= k < |out.batches|
          ensures IsBatchOf(out.batches[k], Chunks(shuffled, batch).value[k], purpose, images)
        {
          assert PairOf(src, raw.batches[k], Chunks(shuffled, batch).value[k]);
        }
        if out.error.Some? {
          var chunk := Chunks(shuffled, batch).value[|out.batches|];
          FirstMissingSpec(src, chunk);
        }
      }
    }
  }
}
