# Batching and preprocessing of data_generator.py, in Dafny

This project models the part of `data_generator.py` that does not depend on what
pandas, rasterio, scikit-learn or Keras do. That file defines two generators:
`SentinelDataGenerator` yields (satellite image, land-cover mask) batches read from
GeoTIFF rasters, and `RGBDataGenerator` yields (target, condition) batches read from
PNG images. Both work the same way:

- the manifest of a split (`Purpose`) is shuffled;
- it is cut into contiguous chunks at offsets 0, b, 2b, … (`range(0, n, b)`);
- every row id of a chunk becomes two file paths, and the two files are read in row order;
- each chunk is yielded as one pair of equal-length lists.

Modules, one per component:

- `Wrappers` (wrappers.dfy): `Option`, `Min`, `Max`.
- `Purposes` (purpose.dfy): the `Purpose` enumeration and its values. `VAL` and `PLOT` share `'plot'`.
- `Formatting` (formatting.dfy): how an integer id is printed.
  - `'%s' % id` and `'{:04d}'.format(id)`.
  - Parsers that read each back, so distinct ids give distinct names.
- `Paths` (paths.dfy): the manifest and sample paths.
- `Batching` (batching.dfy): the shuffle, taken as a permutation, and the chunk list comprehension.
- `Pixels` (pixels.dfy): the conditional `np.clip` of `read_raster`, and the `v / 127.5 - 1.0` rescale over `real`.
- `Loading` (loading.dfy): the nested loops both `load` methods share. This is `LoadPairs`, with the inner loop `ReadChunk`.
- `Generators` (generators.dfy): the two generators.
  - Each is a datatype of its construction-time configuration, which is never updated.
  - Each has a `Load` method that calls `LoadPairs` with its own paths and reads.

A Python generator yields batches until something raises. `Load` therefore returns an
`Outcome`: the batches yielded, in order, and the error that ended the generator, if
any. The error is either a batch size of 0, since `range` refuses a zero step, or the
first missing file. The files on disk are a `map` from path to what reading that path
gives.

Two details of the code shape the model:

- The Sentinel manifest is read from `../data/<dataset>/<purpose>/<descriptor>`
  (data_generator.py:57). The Sentinel sample files and the RGB manifest use `data/…`.
  `Paths.ManifestDirectories` states the difference.
- `load` never passes `self.clip` to `read_raster` (data_generator.py:81-84), so no
  clipping happens when batches are loaded.
  `Generators.SentinelDataGenerator.Load` states the batch contents without any clip.

## Model

| member | source | states |
|---|---|---|
| `Purposes.SameValueIffSameMember` | data_generator.py:17-21 | Two purposes have the same value iff Python's Enum makes them the same member. The only distinct pair with equal values is VAL and PLOT (`'plot'`). |
| `Paths.PurposeDirectories` | data_generator.py:20-21 | Two purposes give the same sample directory iff their values are equal. Every manifest and sample path built for VAL equals the one built for PLOT. |
| `Paths.SentinelSamplePaths` | data_generator.py:73-79 | Satellite paths (`S/S_<id>.tif`) of two ids are equal iff the ids are, and so are mask paths (`LC/LC_<id>.tif`). A satellite path never equals a mask path. Both lie under `data/<dataset>/<purpose>/`. |
| `Paths.RgbSamplePaths` | data_generator.py:131-137 | Target paths of two ids are equal iff the ids are, and so are condition paths. A row's two paths share the directory prefix and the `{:04d}` file name and differ only in `target/` vs `condition/`. A target path never equals a condition path. |
| `Paths.ManifestDirectories` | data_generator.py:57 | The Sentinel manifest path is the RGB manifest path (line 115) prefixed by `../`. The RGB manifest lies under the samples' directory `data/<dataset>/<purpose>/`; the Sentinel manifest does not. |
| `Formatting.PercentSRoundTrip` | data_generator.py:74 | `'%s' % id` is an optional `-` followed by digits, and it parses back to the id. |
| `Formatting.PercentSInjective` | data_generator.py:78 | Distinct ids print differently under `'%s'`. |
| `Formatting.DecimalCanonical` | data_generator.py:74 | The printed digits of an id start with `0` only for the id 0. |
| `Formatting.DecimalRoundTrip` | data_generator.py:74 | The printed digits of a natural number parse back to it. |
| `Formatting.DecimalLength` | data_generator.py:132 | A natural number prints in at most k digits iff it is below 10^k. |
| `Formatting.Format04dPadding` | data_generator.py:132 | For an id ≥ 0, `'{:04d}'` gives its digits preceded only by `'0'`s, with length max(4, digits). Ids below 10000 give exactly 4 characters. Ids of 1000 and above are printed unchanged, as by `'%s'`. |
| `Formatting.Format04dNegative` | data_generator.py:136 | For an id < 0, `'{:04d}'` puts the sign first and zero-pads between sign and digits to total width 4. |
| `Formatting.Format04dRoundTrip` | data_generator.py:132 | `'{:04d}'` output, leading zeros included, parses back to the id. |
| `Formatting.Format04dInjective` | data_generator.py:136 | Distinct ids give distinct `'{:04d}'` names. |
| `Formatting.Format04dPadsSeven` | data_generator.py:132 | `'{:04d}'.format(7)` is `'0007'`. |
| `Formatting.Format04dPadsMinusFive` | data_generator.py:132 | `'{:04d}'.format(-5)` is `'-005'`. |
| `Batching.ShuffleRespectsMultiset` | data_generator.py:64 | Two orderings with the same multiset of positions select the same multiset of rows. |
| `Batching.ShufflePermutes` | data_generator.py:64 | Shuffling by a permutation keeps the length and keeps every row as often as the manifest has it. |
| `Batching.CeilDivIsCeiling` | data_generator.py:66 | `(n + b - 1) / b` is the least k with k·b ≥ n. It is 0 exactly when n is 0. |
| `Batching.Chunks` | data_generator.py:66 | The chunk comprehension fails (ValueError) iff the batch size is 0. It gives no chunks for a negative size and ceil(n / b) chunks for a positive one. |
| `Batching.ChunksFromCount` | data_generator.py:66 | Chunking from offset `start` gives ceil((n - start) / b) chunks. |
| `Batching.ChunksFromSizes` | data_generator.py:66 | Every chunk but the last has b rows. The last has between 1 and b. |
| `Batching.ChunksFromConcat` | data_generator.py:66 | The chunks laid end to end are the rows from `start` onwards, in order. |
| `Batching.FlattenContains` | data_generator.py:66 | Every row of every chunk occurs in the concatenation of the chunks. |
| `Batching.Partition` | data_generator.py:66 | For b ≥ 1 there are ceil(n / b) chunks, none iff the manifest is empty. All but the last have b rows; the last has 1 to b. Concatenated in order, they give back the rows. |
| `Batching.BatchesCoverManifest` | data_generator.py:63-66 | The chunks of the shuffled manifest concatenate to the shuffled manifest, which is a permutation of the manifest: every row lands in a batch exactly as often as the manifest lists it. |
| `Batching.ThreeRowsInBatchesOfTwo` | data_generator.py:64-66 | With ids [1, 2, 3] and batch size 2, any shuffle gives two chunks. The first has 2 rows and the second has 1, and together they hold 1, 2 and 3. |
| `Loading.FirstMissingSpec` | data_generator.py:71-84 | Reading rows in order, satellite/target before mask/condition, finds no failure iff every row is readable. Otherwise it names the first unreadable row's failing path: its first sample's path when that read fails, else its second's. |
| `Loading.ReadChunk` | data_generator.py:68-87 | The per-row loop stops at the first missing file, and that file is what it reports. With no missing file, both lists have the chunk's length, and their i-th entries are the two samples read for the chunk's i-th row. |
| `Loading.SamplesFollowRows` | data_generator.py:66-89 | When every chunk is paired, the first samples of all batches, concatenated, follow the concatenated rows one for one. So do the second samples. |
| `Loading.StoppedLoad` | data_generator.py:66-84 | A load stopped inside chunk k has yielded fewer than ceil(n / b) batches, and some row of the manifest is unreadable. |
| `Loading.CompletedLoad` | data_generator.py:66-89 | A load that paired every chunk yielded ceil(n / b) batches. Its samples follow the shuffled rows one for one, and every row was readable. |
| `Loading.ReadableSameRows` | data_generator.py:64 | Two orderings of the same rows are readable alike. |
| `Loading.LoadPairs` | data_generator.py:60-89 | Batch size 0 gives a ValueError and no batches; a negative size gives no batches. For b ≥ 1: at most ceil(n / b) batches, the k-th paired with the k-th chunk. No error iff every row is readable, and then there are exactly ceil(n / b) batches whose samples follow the shuffled rows. Otherwise the generator stops at the first missing file of the first chunk that has one. |
| `Generators.SentinelDataGenerator.ReadRaster` | data_generator.py:91-105 | A missing raster gives no result. Otherwise, with `clip` None or 0, the result is the normalised raster itself, unclipped. With a positive `clip` c, the result normalises a raster of the raw raster's shape whose values lie in [0, c], equal the raw values already in range, and are 0 or c for values below or above. With a negative `clip`, it normalises a raster of that shape holding only the bound. |
| `Generators.SentinelDataGenerator.Load` | data_generator.py:60-89 | For the shuffled manifest: batch k pairs with chunk k. Its satellite and mask lists have the chunk's length, and their i-th entries are the normalised, unclipped rasters at `S/S_<id>.tif` and `LC/LC_<id>.tif` of the chunk's i-th id. There are ceil(n / b) batches iff every file exists. Otherwise the error names a missing file, the first one in the first chunk that has one. Batch size 0 raises; a negative one yields nothing. |
| `Generators.RGBDataGenerator.Load` | data_generator.py:118-145 | Batch k pairs with chunk k. Its target and condition lists have the chunk's length, and their i-th entries are the rescaled images at `target/<{:04d} id>.png` and `condition/<{:04d} id>.png` of the chunk's i-th id. Error behaviour and batch count are as for the Sentinel generator. |
| `Pixels.ClipStep` | data_generator.py:103 | The clip step keeps the raster's shape: band count, rows per band, columns per row. |
| `Pixels.ClipBounds` | data_generator.py:103 | With a positive bound c, the output keeps the raster's shape and every output value lies in [0, c]. Values already in range are unchanged; values below 0 become 0 and values above c become c. |
| `Pixels.ClipDisabled` | data_generator.py:103 | With `clip` None or 0 (falsy), the raster is returned unchanged. |
| `Pixels.ClipNegativeBound` | data_generator.py:103 | A negative bound is truthy and below 0, so `np.clip` keeps the raster's shape and sets every value to the bound. |
| `Pixels.ClipIdempotent` | data_generator.py:103 | Clipping twice with the same bound equals clipping once. |
| `Pixels.RescaleProperties` | data_generator.py:145 | `v / 127.5 - 1.0` maps 0 to -1 and 255 to 1. It is strictly increasing, maps [0, 255] into [-1, 1], and is inverted by `(w + 1) * 127.5`. |
| `Pixels.RescaleImageBounds` | data_generator.py:145 | An image with values in [0, 255] rescales into [-1, 1]. An all-255 (white) image rescales to all 1. |
| `Pixels.RescaleImageInjective` | data_generator.py:145 | Distinct images rescale to distinct images. |
| `Pixels.RescaleStack` | data_generator.py:145 | Rescaling a stacked batch keeps its size. When every pixel of the batch lies in [0, 255], every rescaled pixel lies in [-1, 1]. An all-white batch (255 everywhere) becomes 1 everywhere. |

## Left out

- File reading is not modelled: `pd.read_csv`, `rasterio.open(...).read`, `load_img` and `img_to_array`. The manifest is a sequence of ids and the files are a map from path to contents. A missing path is the only read error modelled. A malformed manifest and a missing `id` column are not.
- `Path.resolve()` depends on the working directory. Paths are the relative strings before resolution.
- Resampling to `out_shape` and channel-count reconciliation are rasterio behaviour and are not modelled. The raster in the map is the one rasterio returns at the configured shape.
- `np.nan_to_num`, the per-channel `MinMaxScaler` and `reshape_as_image` are library numerics. They are one `normalize` function parameter of `SentinelDataGenerator.Load`. Output shapes, feature range and resampling choices are not configuration fields of the model.
- The randomness of `DataFrame.sample(frac=1, random_state=...)` is not modelled. The permutation it produces is an input. A seeded run is deterministic because the permutation is then a function of the seed.
- Generator laziness is not modelled. `Load` returns every batch the generator would yield, plus the error that would end it.
- Batches are sequences, not tensors. `np.array` stacking of images with different shapes is not modelled.
- Row ids are modelled as integers. `iterrows` upcasts a row with a float column to float, which changes `'%s'` and makes `'{:04d}'` raise. This is not modelled.
- Values are unbounded integers (rasters) and exact reals (images). int16 and float32 ranges and rounding are not modelled.
- The abstract `DataGenerator` base class (data_generator.py:24-32) has only stub methods, and its class-level default `dataset` is always overridden. It is not modelled.
