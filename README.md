# fountain, the discrete core

fountain is a physically based renderer in the style of pbrt. This project models in Dafny the discrete
and structural logic under its floating-point mathematics. It also proves properties of that model.
`Float` is a mathematical `real`. Square roots, normalisation, Fresnel terms, microfacet distributions,
texture evaluation and resampling weights are function parameters that the model does not interpret.
Where only the bit pattern of an `f32` matters, as in the sign test of the triangle intersection, the
value is a `bv32`.

The model covers these parts of the renderer:

- **The bounding volume hierarchy** (`bvh.dfy`, `bvh_build.dfy`, `bvh_flatten.dfy`, `permutation.dfy`).
  - `recursive_build` partitions the primitives in the middle of the longest centroid axis. When that
    split would leave one side empty, it falls back to equal counts.
  - `flatten_tree` lays the tree out in preorder and back-patches each interior node's second-child index.
  - `apply_permutation` reorders the primitives in place by following cycles.
  - `intersect` and `intersect_test` walk the flat nodes with a stack of at most 64 entries. Both are
    proved to agree with a brute-force scan over all primitives.
  - A primitive is a world bound plus a hit oracle, and the ray's `t_max` shrinks with each hit.
- **Image storage** (`blocked_array.dfy`, `mipmap.dfy`, `bounds.dfy`, `film.dfy`, `filter.dfy`, `grid.dfy`, `bits.dfy`).
  - Blocked array address arithmetic and the fills of `new`, `default` and `to_vec`.
  - The MIP map's power-of-two rounding, resampling passes, pyramid of box-filtered levels, wrap modes
    and level selection.
  - Integer box iteration over points and tiles.
  - The film's row-major pixel buffers, tile clipping, splatting through the filter table, merging of
    tiles and final normalisation.
  - The box filter.
- **Meshes and transforms** (`triangle.dfy`, `transform.dfy`).
  - The mesh's index-buffer invariants and the lookups of its triangles.
  - The sign test of the triangle intersection.
  - Transforms as pairs of a matrix and its inverse, for which inversion and composition are exact
    identities.
  - Transforms of points, vectors, normals and boxes.
- **Scattering structure** (`reflection.dfy`, `bsdf.dfy`, `materials.dfy`, `spectrum.dfy`, `spectrum2.dfy`).
  - BxDF type flags, the hemisphere tests, and the zero and `None` guards of the lobes.
  - How a BSDF filters its lobes, picks one to sample and averages their densities.
  - Which lobes each material assembles.
  - Component-wise spectrum algebra.
- **Small state machines** (`sampler.dfy`, `random_sampler.dfy`, `morton.dfy`, `id_arena.dfy`).
  - The sampler's pixel and sample counters and its array offsets.
  - The random sampler.
  - Morton codes over `bv32`.
  - The 1-based id arena.
- **Scene parameters** (`params.dfy`, `constructors.dfy`).
  - The consuming `get_one` over the parameter dictionary and its typed conversions.
  - The defaulting and validation of the scene-object constructors.

Objects whose fields the source changes in place are classes: the film, film tiles, the BSDF, the
samplers, the arena, the parameter set, the blocked array and the node vector of `flatten_tree`. Their
methods are proved against specification functions. Loops that work in place on an array stay
`while` loops over a Dafny `array`. The permutation, the blocked fills, the spectrum assignments and the
mesh's rewrite of its vertex data are of this kind. `wrappers.dfy` holds `Option` and `Result`, and
`geom.dfy` holds the point and vector types.

## Model

| member | source | states |
|---|---|---|
| Blocked.RoundUpIsLeastMultiple | src/blocked_array.rs:20-22 | `round_up(n)` is a multiple of the block size, at least n and less than n plus one block: the least such multiple |
| Blocked.RoundUpMask | src/blocked_array.rs:20-22 | masking with `!(BLOCK_SIZE - 1)` clears exactly the remainder modulo the block size |
| Blocked.RoundUpExample | src/blocked_array.rs:147-150 | `round_up(3) == 4` with blocks of side 4 |
| Blocked.BlockOffsetSplit | src/blocked_array.rs:24-32 | `block(a) * BLOCK_SIZE + offset(a) == a` and `offset(a) < BLOCK_SIZE` |
| Blocked.GetIndexInAllocation | src/blocked_array.rs:34-37 | for u < u_size and v < v_size, `get_index(u, v, u_blocks)` lies below `round_up(u_size) * round_up(v_size)` |
| Blocked.GetIndexInjective | src/blocked_array.rs:58-66 | two in-range coordinate pairs with the same `get_index` are equal |
| Blocked.GetIndexLayout | src/blocked_array.rs:58-66 | `get_index` maps the whole (u, v) range into the allocation, one cell per coordinate pair |
| Blocked.Scatter | src/blocked_array.rs:41-47 | the nested fill loop: cell `idx(u, v)` holds image entry `pos(u, v)` for every in-range pair, and every filled cell is the cell of some in-range pair, so the others stay uninitialised |
| Blocked.BlockedArray.New | src/blocked_array.rs:34-55 | given `data.len() == u_size * v_size`, every in-range `self[(u, v)]` is `data[v * u_size + u]`, and `total_elems` is `data.len()` |
| Blocked.BlockedArray.Default | src/blocked_array.rs:96-116 | every in-range element is the default value and `total_elems == u_size * v_size` |
| Blocked.BlockedArray.ColumnAt | src/blocked_array.rs:87-89 | the inner loop of `to_vec` pushes `self[(u, 0)]`, ..., `self[(u, n - 1)]` in that order |
| Blocked.BlockedArray.ColumnsLength | src/blocked_array.rs:84-92 | after n passes of the outer loop `to_vec` has pushed `n * v_size` elements |
| Blocked.BlockedArray.ColumnsAt | src/blocked_array.rs:84-92 | `to_vec` puts `self[(u, v)]` at position `u * v_size + v`: u in the outer loop |
| Blocked.BlockedArray.ToVec | src/blocked_array.rs:84-92 | the loops push exactly the columns 0, ..., u_size - 1 one after the other |
| Blocked.BlockedArray.PushColumn | src/blocked_array.rs:87-89 | the inner loop appends column u to what was pushed before |
| Blocked.BlockedArray.Set | src/blocked_array.rs:135-141 | a write through `IndexMut` at (u, v) changes that element and no other in-range element |
| Blocked.TestSizesFit | src/blocked_array.rs:152-208 | the 8x8, 7x7 and 8x13 test images fit the geometry the constructors require |
| Bits.BitAndLowMask | src/blocked_array.rs:29-32 | `a & (2^k - 1)` is `a mod 2^k`, the offset inside a block |
| Bits.ShrIsDiv | src/blocked_array.rs:24-27 | `a >> k` is `a / 2^k`, the block number |
| Bounds.Empty2 | src/geometry/bounds.rs:21-26 | `Bounds2::empty()` (min at the `i32` maximum, max at the minimum) contains no point |
| Bounds.Dimensions | src/geometry/bounds.rs:53-57 | the dimensions are the extents that carry min to max on each axis |
| Bounds.Intersection | src/geometry/bounds.rs:41-51 | a point lies in `intersection(a, b)` exactly when it lies in both a and b |
| Bounds.IntersectionWithEmpty | src/geometry/bounds.rs:41-51 | intersecting an `i32` box with `empty()` gives `empty()` |
| Bounds.ColumnAt | src/geometry/bounds.rs:73 | the inner map yields `(x, y1 + j)` at position j, `y2 - y1` points in all (none for an empty range) |
| Bounds.RowsLength | src/geometry/bounds.rs:73 | the flat map yields width times height points |
| Bounds.RowsAt | src/geometry/bounds.rs:73 | point `i * height + j` of the flat map is `(x1 + i, y1 + j)` |
| Bounds.IterPointsAt | src/geometry/bounds.rs:67-74 | `iter_points` yields width times height points, x in the outer loop and y in the inner one |
| Bounds.ColumnMembers | src/geometry/bounds.rs:73 | the inner map yields exactly the points of column x in `[y1, y2)` |
| Bounds.RowsMembers | src/geometry/bounds.rs:73 | the flat map yields exactly the points of `[x1, x2) x [y1, y2)` |
| Bounds.IterPointsMembers | src/geometry/bounds.rs:67-74 | `iter_points` yields p iff `min <= p < max` on both axes |
| Bounds.IterPointsExample | src/geometry/bounds.rs:215-221 | the box (-1,-2)-(1,1) iterates as (-1,-2), (-1,-1), (-1,0), (0,-2), (0,-1), (0,0) |
| Bounds.StepsWidths | src/geometry/bounds.rs:82-85 | the clipped widths of the `step_by` starts add up to the extent of the range |
| Bounds.SumAreasAppend | src/geometry/bounds.rs:240-245 | the sum of tile areas distributes over concatenation |
| Bounds.TileColumnArea | src/geometry/bounds.rs:83-86 | the tiles of one column add up to its clipped width times the clipped heights |
| Bounds.TileRowsArea | src/geometry/bounds.rs:82-87 | all tiles add up to the sum of clipped widths times the sum of clipped heights |
| Bounds.TilesCoverArea | src/geometry/bounds.rs:76-88 | for a positive tile size the tiles' areas add up to the box's area, even when the tile size does not divide it |
| Bounds.UnitTilesExample | src/geometry/bounds.rs:224-234 | unit tiles of the 2x2 box come x-major: (0,0), (0,1), (1,0), (1,1) |
| Bounds.Empty3 | src/geometry/bounds.rs:102-104 | `Bounds3::empty()` contains no finite point |
| Bounds.Join | src/geometry/bounds.rs:106-120 | `join` contains both boxes and lies within every box that contains both |
| Bounds.JoinPoint | src/geometry/bounds.rs:122-136 | `join_point` contains the box and the point and lies within every box that contains both |
| Bounds.JoinEmpty | src/geometry/bounds.rs:102-120 | `empty()` is a left and right identity of `join` on finite boxes |
| Bounds.JoinPointEmpty | src/geometry/bounds.rs:122-136 | `empty().join_point(p)` is the one-point box at a finite p |
| Bounds.Diagonal | src/geometry/bounds.rs:142-144 | min plus the diagonal is max |
| Bounds.Centroid | src/geometry/bounds.rs:138-140 | the centroid is equally far from min and from max |
| Bounds.CentroidInside | src/geometry/bounds.rs:138-140 | the centroid of a box with non-negative extents lies in the box |
| Bounds.MaximumExtent | src/geometry/bounds.rs:146-156 | the result is an axis of largest extent; 0 exactly when x is strictly largest, 1 only when y beats z, so ties go to the later axis |
| Bounds.PointCentroid | src/geometry/bounds.rs:157-159 | a box with `max == min` has zero diagonal and its corner as centroid |
| Film.Offset | src/film.rs:202-206 | a point inside the tile box gets a slot below the box's area, and the slot maps back to the point |
| Film.OffsetInverse | src/film.rs:202-206 | the row-major offset of an inside point is in range and inverted by `PointAt` |
| Film.PointAtInverse | src/film.rs:202-206 | every slot of an ordered box's buffer holds an inside point whose offset is that slot, so the layout is onto |
| Film.OffsetInjective | src/film.rs:116-120 | distinct inside points get distinct slots |
| Film.CroppedBounds | src/film.rs:49-57 | the crop window scaled by a non-negative resolution and rounded up gives an ordered pixel box |
| Film.BoxFilterTable | src/film.rs:61-71 | a film built with a box filter has every filter-table entry equal to 1 |
| Film.BuildFilterTable | src/film.rs:61-71 | the nested loop fills a 16x16 table whose entry (y, x) is the filter at the centre of cell (x, y) of the radius |
| Film.Footprint | src/film.rs:138-140 | `[p0, p1)` holds exactly the pixels whose coordinates lie within the radius of the discrete sample position |
| Film.TileSpan | src/film.rs:95-106 | corrected: the tile span contains the footprint of every sample position inside the sample bounds |
| Film.TileSpanAsWritten | src/film.rs:95-106 | as written the span agrees with the corrected one except in its upper y bound, which for a non-negative radius is no larger |
| Film.TileSpanAsWrittenMisses | src/film.rs:100-101 | with radius 1.5 and sample bounds (0,0)-(2,2), the sample at (1.5, 1.9) reaches pixel (1, 2), which the span as written leaves out |
| Film.FilterIndex | src/film.rs:147-150 | the filter-table index never exceeds `FILTER_TABLE_WIDTH - 1` |
| Film.FilterIndices | src/film.rs:145-159 | the index buffer has one entry per coordinate of `[lo, hi)`, entry i being the clamped index of `lo + i`, all below 16 |
| Film.Splat | src/film.rs:161-172 | the splat keeps the tile buffer's length |
| Film.SplatAt | src/film.rs:161-172 | the tile pixel at q gains `radiance * sample_weight * w` and w, with w its table entry, exactly when q lies in the clipped footprint; every other pixel is unchanged |
| Film.SplatStep | src/film.rs:162-171 | one pass of the inner body updates the slot of (x, y) and nothing else |
| Film.SplatRowDone | src/film.rs:161-172 | finishing row y is starting row y + 1 |
| Film.SplatAll | src/film.rs:161-172 | the loops start from the old buffer and finish with the whole splat |
| Film.MergedAt | src/film.rs:122-133 | the film pixel at q gains the XYZ and weight of the tile pixel at q when the tile covers q, and is unchanged otherwise |
| Film.Merged | src/film.rs:122-133 | a merge keeps the film buffer's length |
| Film.MergeStep | src/film.rs:124-132 | merging one point updates only the film slot of that point |
| Film.MergeColumnDone | src/film.rs:124 | `iter_points` finishes a column and starts the next |
| Film.MergeAll | src/film.rs:122-133 | the loop starts from the old film buffer and ends with the whole merge |
| Film.Normalise | src/film.rs:179-184 | a pixel of weight 0 is emitted unnormalised; for any non-zero weight, positive or negative, each channel becomes `max(0, channel / weight)`, so a negative quotient becomes 0 |
| Film.FlattenAt | src/film.rs:177-186 | entry `3k + i` of the flat buffer is channel i of pixel k, converted and normalised |
| Film.FlattenAll | src/film.rs:177-186 | every entry of the flat buffer is the matching channel of its pixel |
| Film.SplatRow | src/film.rs:162-171 | the inner x loop of the splat carries the buffer from the start of row y to its end |
| Film.FilmTile.constructor | src/film.rs:108-113 | a tile holds `max(area, 0)` zeroed pixels |
| Film.FilmTile.PixelIndex | src/film.rs:202-206 | `FilmTile::get_pixel_idx` is row-major from the tile's min corner, in range and invertible for inside points |
| Film.Film.constructor | src/film.rs:43-81 | `Film::new` sets the cropped bounds from the crop window, allocates `area` zeroed pixels and fills the filter table |
| Film.Film.PixelIndex | src/film.rs:116-120 | `Film::get_pixel_idx` is row-major from the cropped min, in range and invertible for inside points |
| Film.Film.GetFilmTile | src/film.rs:95-114 | the tile's bounds are the span of the sample bounds as written (y bound lowered by the radius) intersected with the cropped bounds; it carries the filter radius and holds zeroed pixels |
| Film.Film.AddSampleToTile | src/film.rs:137-173 | the tile buffer afterwards is the splat of the sample over its clipped footprint |
| Film.Film.MergeFilmTile | src/film.rs:122-133 | the film buffer afterwards is the merge of the tile |
| Film.Film.IntoImageBuffer | src/film.rs:175-194 | width and height are the cropped dimensions, the buffer has `3 * width * height` entries and entry `3k + i` is channel i of pixel k normalised |
| Filter.Evaluate | src/filter/mod.rs:16-18 | the box filter weighs every point 1 |
| Filter.Radius | src/filter/mod.rs:20-22 | `radius()` returns the stored radius and inverse radius unchanged |
| Filter.AsFilter | src/filter/mod.rs:15-23 | seen through the `Filter` interface the box filter has the same radius pair and evaluates to 1 everywhere |
| Filter.DefaultRadius | src/filter/mod.rs:25-33 | the default radius is (0.5, 0.5) and the default inverse radius is its reciprocal on both axes |
| IdArena.Id.Idx | src/id_arena.rs:10-14 | `idx()` of a valid id is one less than its stored non-zero value |
| IdArena.Arena.constructor | src/id_arena.rs:21-25 | a new arena is empty |
| IdArena.Arena.Insert | src/id_arena.rs:27-34 | the item is appended, earlier items stay, the returned id is valid with `idx()` equal to the old length, and `get` of it returns the item |
| IdArena.Arena.Get | src/id_arena.rs:36-40 | `get` of an id whose slot exists returns the item in slot `idx()`, an item of the arena |
| IdArena.Arena.SetThrough | src/id_arena.rs:42-46 | a write through `get_mut` changes only the id's slot |
| IdArena.Arena.TryIndex | src/id_arena.rs:48-54 | as written: 0 gives `None`, and k > 0 gives vector slot k when `k < len` and `None` otherwise |
| IdArena.Arena.TryIndexById | src/id_arena.rs:48-54 | corrected: a lookup by the stored 1-based value succeeds exactly for `0 < k <= len` |
| IdArena.IdsIncrease | src/id_arena.rs:27-34 | ids of successive inserts, whose slots increase, are strictly increasing |
| IdArena.TryIndexByIdFindsEveryId | src/id_arena.rs:48-54 | the corrected lookup finds every valid id, with the item `get` returns |
| IdArena.TryIndexMissesOnlyItem | src/id_arena.rs:48-54 | as written, an arena of one item returns `None` both for 0 and for that item's id 1 |
| MipMap.IsPowerOfTwoIff | src/mipmap.rs:28-30 | `n != 0 && n & (n - 1) == 0` holds exactly for the powers of two |
| MipMap.Exponent | src/mipmap.rs:28-30 | a number the test accepts is `2^k` for some k |
| MipMap.PowerOfTwo | src/mipmap.rs:28-30 | the test accepts every power of two |
| MipMap.Log2Usize | src/mipmap.rs:32-34 | for 0 < n < 2^64, `63 - n.leading_zeros()` is the r with `2^r <= n < 2^(r+1)` |
| MipMap.Log2OfPow2 | src/mipmap.rs:32-34 | `log2_usize(2^k) == k` |
| MipMap.NextPowerOfTwo | src/mipmap.rs:57-58 | `next_power_of_two(n)` is a power of two, at least n, and the least one (its half is below n unless it is 1) |
| MipMap.NextPowerOfTwoOfPow2 | src/mipmap.rs:57-58 | a power of two rounds to itself |
| MipMap.NextPowerOfTwoExamples | src/mipmap.rs:57-58 | 20 rounds to 32, 10 to 16 and 16 to 16 |
| MipMap.RemEuclid | src/mipmap.rs:196-197 | `rem_euclid` by a positive side lies in `[0, side)` and fixes in-range coordinates |
| MipMap.RemEuclidIsMod | src/mipmap.rs:196-197 | the remainder is the Euclidean `c mod n`, also for negative c |
| MipMap.WrapCoord | src/mipmap.rs:193-206 | every wrapped coordinate is in range; Black alone drops a coordinate, exactly when it is outside; in-range coordinates are kept; Clamp sends below-range to 0 and above-range to `size - 1` |
| MipMap.GetTexel | src/mipmap.rs:193-208 | an in-range fetch reads that texel under every mode, and Black gives 0 outside the level |
| MipMap.RepeatIsPeriodic | src/mipmap.rs:196-197 | under Repeat, shifting either coordinate by the level's side fetches the same texel |
| MipMap.ConstantTexel | src/mipmap.rs:193-208 | a level whose texels are all c reads c everywhere unless Black leaves it |
| MipMap.AccumulateTaps | src/mipmap.rs:70-80 | the four-tap loop sums the wrapped texel times its weight over the taps the wrap mode keeps |
| MipMap.ScaledSumIsProduct | src/mipmap.rs:70-80 | scaling each weight by c and summing is c times the weight sum |
| MipMap.TapsOfConstant | src/mipmap.rs:70-80 | over a constant row with no Black border the taps give c times the sum of the weights |
| MipMap.TapsScaled | src/mipmap.rs:70-80 | over a constant row the running tap sum is the running scaled weight sum |
| MipMap.TapOfConstant | src/mipmap.rs:77-78 | one tap over a constant row with no Black border is c times its weight |
| MipMap.AddScaled | src/mipmap.rs:78 | adding two scaled parts is scaling their sum |
| MipMap.Row | src/mipmap.rs:66 | row t of a level holds the texels (s, t) in order |
| MipMap.Column | src/mipmap.rs:86-87 | the first n entries of column s of a flat image, in row order |
| MipMap.ResampleRows | src/mipmap.rs:61-82 | the horizontal pass fills `w2 * h2` texels; texel (s, t) of an original row is the taps of new column s over row t, later rows stay 0 |
| MipMap.ColumnWrite | src/mipmap.rs:102 | writing texel (s, t) changes column s at row t and no other column |
| MipMap.ColumnPrefix | src/mipmap.rs:97-99 | the first m entries of a column are a prefix of its first n |
| MipMap.ResampleColumns | src/mipmap.rs:85-104 | corrected vertical pass: new row t of column s filters the original h entries of column s |
| MipMap.Filtered | src/mipmap.rs:86-104 | a filtered column has one entry per table row: the taps of that row over the original entries |
| MipMap.FilterColumn | src/mipmap.rs:87-103 | filtering column s sets it to the filtered entries and leaves every other column alone |
| MipMap.InPlaceColumn | src/mipmap.rs:86-103 | the column after in-place filtering keeps its length |
| MipMap.ResampleColumnsInPlace | src/mipmap.rs:86-104 | the vertical pass as written: each column ends as the in-place filtering of itself, later rows reading rows already overwritten |
| MipMap.InPlaceColumnOfConstant | src/mipmap.rs:86-103 | filtering in place a column whose first h entries are c, with normalised weights and no Black border, sets every row filtered so far to c and leaves the rest |
| MipMap.FilterColumnInPlace | src/mipmap.rs:87-103 | one column as written, each new row stored back before the next is filtered; other columns unchanged |
| MipMap.FilterTexelInPlace | src/mipmap.rs:88-102 | one new row as written: the taps over the column as it stands, stored into row t |
| MipMap.InPlaceColumnDiffers | src/mipmap.rs:86-103 | with four weights of 0.25, first texels -2 and -1, the column [1, 0, 0, 0] and h = 3 under Clamp, row 1 comes out 0.375 in place instead of 0.5 |
| MipMap.HalvingsOfPow2 | src/mipmap.rs:116-118 | repeated `max(1, n / 2)` of `2^k` gives `2^(k - i)` for i <= k and 1 afterwards |
| MipMap.Downsample | src/mipmap.rs:119-132 | a level of `s_res * t_res` texels whose texel (s, t) is `0.25` times the sum of the four wrapped texels at `(2s or 2s+1, 2t or 2t+1)` of the previous level |
| MipMap.DownsampleOfConstant | src/mipmap.rs:122-131 | the box filter keeps a constant level constant when no fetch is Black |
| MipMap.BuildPyramid | src/mipmap.rs:110-135 | the fold pushes `n_levels - 1` downsampled levels after the base, each box-filtering the one before at the halved size |
| MipMap.PyramidPush | src/mipmap.rs:133 | pushing the downsample of the last level extends a pyramid |
| MipMap.PyramidOfConstant | src/mipmap.rs:115-135 | every level of a pyramid over a constant base is constant |
| MipMap.CoarsestLevel | src/mipmap.rs:110 | with power-of-two sides, `1 + log2(max(w, h))` halvings end at a 1x1 level |
| MipMap.PyramidApex | src/mipmap.rs:110-135 | the full pyramid over a power-of-two base ends in a 1x1 level |
| MipMap.ResampledOfConstant | src/mipmap.rs:61-104 | resampling a constant image with normalised weights and no Black border gives the constant back |
| MipMap.ResampleToPowerOfTwo | src/mipmap.rs:57-105 | the two passes as written produce a `w2 * h2` level whose every texel is the in-place vertical filtering of the horizontal pass's column |
| MipMap.New | src/mipmap.rs:52-143 | the resolution is each side's next power of two; power-of-two input keeps image and resolution, other input is resampled as written (vertical pass in place); the pyramid has `1 + log2(max side)` levels, each box-filtering the one before, the last 1x1 |
| MipMap.LerpOfEqual | src/mipmap.rs:155 | interpolating between equal values gives that value |
| MipMap.LerpEnds | src/mipmap.rs:155 | `lerp(0, a, b) == a` and `lerp(1, a, b) == b` |
| MipMap.Bilinear | src/mipmap.rs:174-177 | with both fractions zero the blend is the first texel, and four equal texels blend to their value at any fractions |
| MipMap.ClampLevel | src/mipmap.rs:166 | the clamped level index is in the pyramid, equal to the level when in range and the last level otherwise |
| MipMap.BlendAtTexelCentre | src/mipmap.rs:168-177 | at a texel centre the four-texel blend gives that texel |
| MipMap.BlendOfConstant | src/mipmap.rs:168-177 | a constant level blends to its constant at any position |
| MipMap.TriangleAtTexelCentre | src/mipmap.rs:165-179 | `triangle` at the centre of texel (s, t) gives that texel |
| MipMap.TriangleOfConstant | src/mipmap.rs:165-179 | `triangle` on a constant level gives the constant |
| MipMap.ChooseLevel | src/mipmap.rs:147-156 | a level below 0 picks the finest level, one at or beyond `levels - 1` the coarsest, anything between the floor level (with a next level) and its fraction in `[0, 1)` |
| MipMap.Triangle | src/mipmap.rs:165-179 | `triangle` blends on the requested level, or on the coarsest one when the level is past the pyramid |
| MipMap.LookupOfConstant | src/mipmap.rs:145-157 | a pyramid of constant levels looks up its constant in all three branches |
| MipMap.LookupConstantImage | src/mipmap.rs:52-157 | a map built from a constant image with normalised weights and no Black border looks up that constant at every position and width |
| MipMap.ResamplingAsWrittenOfConstant | src/mipmap.rs:57-105 | the base made by the passes as written from a constant image, with normalised weights and no Black border, is constant |
| MipMap.FilterWidth | src/mipmap.rs:160 | corrected: the width is the largest of the four absolute differentials |
| MipMap.FilterWidthAsWrittenDiffers | src/mipmap.rs:160 | for `dst0 = (0, -1)`, `dst1 = (0, 0)` the width as written is 0 where the largest absolute differential is 1 |
| MipMap.FilterWidthAsWritten | src/mipmap.rs:160 | as written the width bounds the three absolute differentials and `dst0.y`, and it equals the corrected width whenever `dst0.y >= 0` |
| MipMap.LookupTrilinear | src/mipmap.rs:145-160 | `lookup_trilinear` as written takes twice the width as written; whenever `dst0.y >= 0` that is the lookup at twice the corrected width |
| Grid.RowMajorLayout | src/mipmap.rs:78 | the row-major position `v * u_size + u` of an in-range pair stays inside the image |
| Grid.RowMajorInjective | src/mipmap.rs:78 | row-major positions of distinct in-range pairs differ |
| Grid.Fill | src/mipmap.rs:119-132 | a buffer of n default cells, then `buf[pos(s, t)] = f(s, t)` for t outer and s inner, ends with `f(s, t)` at every in-range position |
| Morton.ToFixedPoint | src/morton.rs:16-22 | for `0 <= val < 1` the result is `trunc(val * 1024)`: below 1024 and the integer part of `val * 1024` |
| Morton.ExpandBits | src/morton.rs:24-36 | for a 10-bit input the four wrapping multiply-and-mask steps move bit i to bit 3i and clear every bit outside `0x49249249` |
| Morton.Morton3Interleaves | src/morton.rs:3-14 | `morton3` is the interleaving of the three fixed-point coordinates, x in bits 3i+2, y in 3i+1, z in 3i |
| Morton.InterleaveLanes | src/morton.rs:12 | the three shifted values occupy disjoint bit lanes: masking the code (shifted by 0, 1, 2) recovers each spread value |
| Morton.DecodeInterleave | src/morton.rs:12 | de-interleaving a code gives back the three coordinates, so distinct coordinates give distinct codes |
| Morton.ExpandAllOnes | src/morton.rs:50-54 | `expand_bits(0x3FF) == 0b001001...001` (30 bits) |
| Morton.FixedPointExamples | src/morton.rs:56-60 | 0.99999 converts to 0x3FF and 0 to 0 |
| Morton.Morton3Example | src/morton.rs:42-48 | `morton3(0.9999, 0.0, 0.9999) == 0b101101...101` |
| Params.InstancesLawful | src/loaders/mod.rs:103-112 | each of the ten generated instances picks out exactly the values its `From<Vec<T>>` constructor builds |
| Params.TryFromOne | src/loaders/mod.rs:65-80 | scalar conversion succeeds exactly for the matching variant holding one element, returns that element, and otherwise reports the instance's type label |
| Params.TryFromMany | src/loaders/mod.rs:82-93 | vector conversion succeeds exactly for the matching variant, returns all its elements in order, and otherwise reports the type label |
| Params.ManyRoundTrip | src/loaders/mod.rs:82-99 | `From<Vec<T>>` followed by `TryFrom` into `Vec<T>` gives the vector back |
| Params.OneOfMany | src/loaders/mod.rs:65-99 | a converted vector converts to a scalar exactly when it has one element, and then to that element |
| Params.TryFromTransform | src/loaders/mod.rs:40-49 | only the Transform variant converts to a transform, to the transform it holds; anything else reports "transform" |
| Params.LookupCases | src/loaders/mod.rs:121-129 | a missing name is reported with the requested type's name, a failed conversion with the conversion's label, a success returns the converted value; every error names the parameter asked for |
| Params.LookupOther | src/loaders/mod.rs:124 | removing a different name leaves what a name looks up to unchanged |
| Params.LookupRemoved | src/loaders/mod.rs:124 | removing a set of other names leaves what a name looks up to unchanged |
| Params.ParamSet.constructor | src/loaders/mod.rs:115-118 | the set holds the given dictionary |
| Params.ParamSet.GetOne | src/loaders/mod.rs:121-129 | `get_one` answers the lookup in the old dictionary and removes the name whether or not the conversion succeeds |
| Params.ParamSet.GetMany | src/loaders/mod.rs:131-135 | `get_many` is `get_one` through the vector conversion |
| Params.ParamSet.CurrentTransform | src/loaders/mod.rs:137-139 | `current_transform` consumes `"object_to_world"` through the Transform conversion |
| Params.ParamSet.ReverseOrientation | src/loaders/mod.rs:141-143 | `reverse_orientation` consumes `"reverse_orientation"` as one bool |
| Params.GetTwice | src/loaders/mod.rs:121-129 | a second `get_one` of the same name always fails with the missing-name error, even after a failed conversion |
| Constructors.TextureLookup | src/loaders/constructors.rs:199-203 | a texture getter consumes the name: a texture handle of the element type is used as it is, a single value becomes a constant texture, a missing name gives the constant default (or the missing-name error when there is no default), and anything else is an error of the conversion's label |
| Constructors.GetTexture | src/loaders/constructors.rs:215-219 | the texture read returns what `TextureLookup` gives on the old dictionary and removes exactly that name |
| Constructors.GetFloatTexture | src/loaders/constructors.rs:201-203 | a float texture read (the roughnesses, eta) is `TextureLookup` on the float instance, consuming the name |
| Constructors.GetSpectrumTexture | src/loaders/constructors.rs:199-200 | a spectrum texture read (Kr, Kt) is `TextureLookup` on the spectrum instance, consuming the name |
| Constructors.GetFloatOr | src/loaders/constructors.rs:39-42 | `get_one(name).unwrap_or(d)` for a float: the stored single float if it converts, else the default, and the name is gone afterwards |
| Constructors.MakeSphere | src/loaders/constructors.rs:38-55 | the sphere's arguments are those of the reads in source order on the successively reduced dictionary, with the first missing required parameter as the error |
| Constructors.SphereDefaults | src/loaders/constructors.rs:39-42 | with no radius, z bounds or sweep given, the sphere is the unit sphere from z = -1 to z = 1 over 360 degrees |
| Constructors.SphereZFollowsRadius | src/loaders/constructors.rs:40-41 | a missing z bound defaults to minus or plus the radius, whatever radius was read |
| Constructors.SphereFrom | src/loaders/constructors.rs:38-55 | without `object_to_world` the result is the Transform ParamError naming it; without `reverse_orientation` it is a ParamError; on success the world-to-object transform is the inverse of the object-to-world one |
| Constructors.AsU32Keeps | src/loaders/constructors.rs:60 | the `i as u32` cast keeps every index in 0 .. 2^32 unchanged |
| Constructors.AsU32s | src/loaders/constructors.rs:60 | the cast index list has the same length and each entry is the two's-complement reading of the matching `i32` |
| Constructors.Pairs | src/loaders/constructors.rs:75-77 | `chunks_exact(2)` turns an even-length float list into half as many points, point i being (xs[2i], xs[2i+1]) |
| Constructors.FloatFallback | src/loaders/constructors.rs:72-73 | the float-array fallback gives coordinates exactly when the float read succeeded with an even length |
| Constructors.TexCoordsAsWritten | src/loaders/constructors.rs:65-79 | as written, the texture coordinates are only ever those of a point array under `uv` or else `st`, and the reads consume `uv` always and `st` unless `uv` held points; the float-array fallback never contributes |
| Constructors.FloatTexCoordsLost | src/loaders/constructors.rs:65-79 | a dictionary holding `uv` = [0, 1] gives no coordinates as written, but the intended reading gives the single point (0, 1) |
| Constructors.TexCoordsLocal | src/loaders/constructors.rs:65-79 | the intended texture coordinates depend only on the entries under `uv` and `st` |
| Constructors.TexCoords | src/loaders/constructors.rs:65-79 | the corrected read returns the intended coordinates (point arrays first, then an even float array under `uv` or `st`) and removes exactly `uv` and `st` |
| Constructors.PointTexCoords | src/loaders/constructors.rs:65-71 | point-array coordinates come only from `uv` or `st`, and a `uv` entry that converts to points is used |
| Constructors.IntendedTexCoords | src/loaders/constructors.rs:65-79 | the intended reading uses the point arrays whenever they give coordinates and only ever reads `uv` and `st` |
| Constructors.MakeMeshTail | src/loaders/constructors.rs:62-80 | after the positions, the mesh's optional normals and tangents, its texture coordinates as written and its required orientation flag are read in source order |
| Constructors.MeshTail | src/loaders/constructors.rs:62-80 | the mesh tail fails without `reverse_orientation`, and a successful mesh keeps the transform, the vertices and one index per index read |
| Constructors.MakeTriangleMesh | src/loaders/constructors.rs:57-92 | the mesh's arguments are those of the reads in source order on the successively reduced dictionary, texture coordinates as written, failing at the first missing transform, index list, position list or orientation flag |
| Constructors.MeshFrom | src/loaders/constructors.rs:57-92 | a mesh without `object_to_world` fails with the Transform ParamError naming it; a successful mesh had the transform, `indices`, `P` and `reverse_orientation`, and keeps one index per index read |
| Constructors.MakeGlass | src/loaders/constructors.rs:198-206 | the glass parameters are the texture reads in source order, failing at the first one that does not convert |
| Constructors.GlassDefaults | src/loaders/constructors.rs:198-206 | glass with nothing given reflects and transmits 1, is smooth in both directions, has eta 1.5 and remaps its roughness |
| Constructors.GlassFrom | src/loaders/constructors.rs:198-206 | whenever glass is built, a missing eta gives the constant 1.5 and a missing `remaproughness` gives true |
| Constructors.MetalRoughnessFrom | src/loaders/constructors.rs:220-225 | the roughness is anisotropic exactly when both axis reads succeeded, with those two textures, and otherwise the isotropic roughness |
| Constructors.MakeMetal | src/loaders/constructors.rs:213-230 | the metal parameters are the reads in source order, failing at the first required one that does not convert |
| Constructors.MetalFrom | src/loaders/constructors.rs:213-230 | eta and k have no default: without eta the error is the Spectrum ParamError naming `eta`, and without k the result is an error |
| Constructors.MetalIsotropicDefault | src/loaders/constructors.rs:217-227 | unless both axes are given the metal is isotropic, with roughness 0.01 when none is given, and the remap defaults on |
| Constructors.MetalAnisotropic | src/loaders/constructors.rs:218-223 | with both axes given as single floats the metal is anisotropic with exactly those constant roughnesses |
| Constructors.MakePlastic | src/loaders/constructors.rs:232-238 | the plastic parameters are the reads in source order, failing at the first one that does not convert |
| Constructors.PlasticDefaults | src/loaders/constructors.rs:232-238 | plastic with nothing given has Kd = ks = 0.25, roughness 0.1 and remaps its roughness |
| Constructors.PlasticFrom | src/loaders/constructors.rs:232-238 | whenever plastic is built, a missing roughness gives the constant 0.1 and a missing `remaproughness` gives true |
| Constructors.MakeDiffuseAreaLight | src/loaders/constructors.rs:240-245 | the light's emission and sample count are the reads in source order, `twosided` being read and ignored |
| Constructors.DiffuseAreaLightDefaults | src/loaders/constructors.rs:240-245 | the area light never fails, and with nothing given it emits 1 with one sample |
| Constructors.MakeTexCoordsMap2D | src/loaders/constructors.rs:247-261 | the mapping is the one the reads in source order give, and on success the five names it reads are gone |
| Constructors.TexCoordsMapCases | src/loaders/constructors.rs:247-261 | with nothing given the mapping is uv with unit scales and zero offsets; any mapping name other than `uv` is refused with "Unknown mapping type" and that name; success implies the name was `uv` or absent |
| Constructors.ParseWrap | src/loaders/constructors.rs:298-305 | `repeat`, `black` and `clamp` and only they parse, to Repeat, Black and Clamp; every other name is refused with "Unknown repeat type" and that name |
| Constructors.MakeImageMapArgs | src/loaders/constructors.rs:295-308 | the image-map parameters are the reads in source order up to the image load, failing at a missing file name, a bad wrap name or a bad mapping |
| Constructors.ImageMapCases | src/loaders/constructors.rs:296-305 | the file name is required and read first, the wrap mode defaults to Repeat, and a single unknown wrap name fails with its own message |
| Permutation.UnmarkedMark | src/bvh.rs:365 | marking one unmarked index entry lowers the count of unmarked entries by one, which makes the cycle walk terminate |
| Permutation.SwapMultiset | src/bvh.rs:364 | `items.swap` keeps the multiset of items |
| Permutation.StartCycle | src/bvh.rs:358-360 | starting at an unmarked entry between cycles establishes the cycle state at that entry |
| Permutation.StepCycle | src/bvh.rs:362-368 | one turn of the inner loop keeps the cycle state one entry further along the cycle |
| Permutation.CloseCycle | src/bvh.rs:370 | marking the entry that points back at the start completes the cycle and returns to the between-cycles state |
| Permutation.SwapAlong | src/bvh.rs:363-367 | one turn swaps the item along, marks the entry, keeps the cycle state at the target, lowers the unmarked count and keeps the items' multiset |
| Permutation.FollowCycle | src/bvh.rs:360-370 | the inner `while` marks the start entry and the rest of its cycle, only adds marks, keeps the items' multiset and ends between cycles |
| Permutation.Initially | src/bvh.rs:357 | before the first cycle, with nothing marked, the between-cycles state holds |
| Permutation.AllPlaced | src/bvh.rs:357-371 | once every entry is marked the items are in their permuted places and the indices are all marked |
| Permutation.ApplyPermutation | src/bvh.rs:353-372 | for a permutation, slot i ends holding the original item at `indices[i]`, the items keep their multiset, and every index x ends as -1 - x |
| Permutation.PermutationExample | src/bvh.rs:390-398 | the permutation [2, 3, 0, 1, 4] applied to a .. e gives c, d, a, b, e |
| BvhBuild.NewPrimInfo | src/bvh.rs:308-312 | a primitive's record keeps its id and box, and its centroid is equidistant from the box's two corners |
| BvhBuild.NewInterior | src/bvh.rs:335-342 | an interior node keeps its two children and its axis, and its box is the least box holding both children's boxes |
| BvhBuild.IdsOfMultiset | src/bvh.rs:97-101 | rearranging the primitive records rearranges their ids the same way |
| BvhBuild.IdsOfParts | src/bvh.rs:97-101 | splitting the primitive records into two parts splits their ids alike |
| BvhBuild.FoldBoundsCovers | src/bvh.rs:71-74 | the fold's first box holds every primitive's box and its second box every centroid |
| BvhBuild.SameCentroidsPoint | src/bvh.rs:71-74 | when all finite centroids are one point c, the centroid box is the one-point box at c |
| BvhBuild.CentroidBoundsPoint | src/bvh.rs:80 | the centroid box is a point exactly when all finite centroids coincide |
| BvhBuild.PartitionKeys | src/bvh.rs:96-99 | every centroid coordinate on the first side of the midpoint partition is below the midpoint and every one on the second side is not |
| BvhBuild.PartitionRearranges | src/bvh.rs:97-99 | the two sides of the partition together are the primitives, rearranged |
| BvhBuild.PartitionBy | src/bvh.rs:97-99 | the two sides of the partition together have as many primitives as the slice |
| BvhBuild.InsertSorted | src/bvh.rs:123-125 | inserting into a list ordered by a centroid coordinate keeps it ordered |
| BvhBuild.SortByOrders | src/bvh.rs:123-125 | the ordering by a centroid coordinate is sorted and a rearrangement of the primitives |
| BvhBuild.PartitionEqualCounts | src/bvh.rs:119-127 | the split at `len / 2` puts half the primitives, rounded down, on the first side and the rest on the second |
| BvhBuild.EqualCountsOrdered | src/bvh.rs:119-127 | after the equal-counts split no centroid coordinate on the first side lies above one on the second, and the halves together are the primitives, rearranged |
| BvhBuild.SplitMiddle | src/bvh.rs:94-104 | the middle split of at least two primitives always gives two non-empty sides that together hold all of them |
| BvhBuild.SplitMiddleOrdered | src/bvh.rs:94-104 | whichever way the middle split goes, no key on the first side lies above one on the second and the sides are the primitives, rearranged |
| BvhBuild.MiddleSound | src/bvh.rs:80-104 | the middle-split plan only ever splits on a coordinate axis into two non-empty sides that are the primitives, rearranged |
| BvhBuild.BuildByCount | src/bvh.rs:61-117 | for any sound plan the tree counts the primitives and one id is pushed per primitive |
| BvhBuild.BuildByContiguous | src/bvh.rs:80-115 | for any sound plan the leaves cover the positions of the pushed ids from left to right, each leaf holding at least one |
| BvhBuild.InteriorContiguous | src/bvh.rs:113-116 | two contiguous children side by side make a contiguous interior node |
| BvhBuild.BuildByIds | src/bvh.rs:80-115 | for a rearranging plan the pushed ids are those of the primitives, each as often as it occurs |
| BvhBuild.ConsistentPart | src/bvh.rs:97-101 | the primitives of a split's side are primitives of the whole, with the same boxes |
| BvhBuild.PlacedSplit | src/bvh.rs:113-114 | ids pushed by the first child and then by the second sit one after the other |
| BvhBuild.LeafFits | src/bvh.rs:71-87 | a leaf's box holds the boxes of the primitives placed in its range |
| BvhBuild.InteriorFits | src/bvh.rs:335-342 | two fitting children make a fitting interior node |
| BvhBuild.BuildByFits | src/bvh.rs:61-117 | once the primitives are placed in push order, every leaf box holds its primitives' boxes and every interior box is the join of its children's |
| BvhBuild.BuildShape | src/bvh.rs:61-117 | `recursive_build` counts its primitives, covers the positions of the ids it pushes with non-empty leaves from left to right, and pushes each primitive's id as often as it occurs |
| BvhBuild.BuildFits | src/bvh.rs:61-117 | the tree built by the middle split bounds its primitives once they are placed in its order |
| BvhBuild.BuildLeafIff | src/bvh.rs:80 | `recursive_build` makes a leaf exactly when there is one primitive or all finite centroids coincide |
| BvhBuild.Builder.constructor | src/bvh.rs:37 | the ordering starts empty |
| BvhBuild.Builder.PushIds | src/bvh.rs:81-84 | the leaf case appends the ids of its primitives in order |
| BvhBuild.Builder.RecursiveBuild | src/bvh.rs:61-117 | the method returns the tree of the recursive definition and appends exactly the ids that definition pushes |
| BvhBuild.Builder.BuildChildren | src/bvh.rs:113-116 | the interior case builds the first side, then the second, and joins them under the split axis |
| BvhFlatten.Flatten | src/bvh.rs:130-155 | the preorder layout of a subtree has one node per build node |
| BvhFlatten.EncodesExtend | src/bvh.rs:148 | nodes pushed after an encoded subtree leave it encoded |
| BvhFlatten.EncodesFits | src/bvh.rs:151 | an encoded subtree lies inside the vector |
| BvhFlatten.FlattenEncodes | src/bvh.rs:130-155 | the preorder layout placed at any position encodes the tree there: every node's box, leaf range or axis, with each interior node followed by its first child and pointing at its second |
| BvhFlatten.EncodesUnique | src/bvh.rs:130-155 | the flat vector determines the tree: two trees encoded at the same place are equal |
| BvhFlatten.SizeBound | src/bvh.rs:50 | a tree whose leaves each hold a primitive has fewer than twice as many nodes as primitives |
| BvhFlatten.PatchAt | src/bvh.rs:144-146 | patching the placeholder changes that entry and nothing else |
| BvhFlatten.NodeList.constructor | src/bvh.rs:50 | the flat vector starts empty |
| BvhFlatten.NodeList.FlattenTree | src/bvh.rs:130-155 | `flatten_tree` appends exactly the preorder layout of the subtree at the current end, second-child indices patched in, and returns the subtree's node count |
| BvhFlatten.NodeList.SetSecondChild | src/bvh.rs:144-146 | the patch sets the second-child index of the interior node at i and changes nothing else |
| BvhFlatten.InteriorLayout | src/bvh.rs:139-151 | placeholder patched, then first subtree, then second subtree, is the preorder layout of the interior node |
| BvhFlatten.FlattenRoot | src/bvh.rs:50-53 | flattening the root into an empty vector encodes the whole tree from index 0, with length the tree's node count |
| Bvh.NearestUnique | src/bvh.rs:512-515 | over the same primitives in any order, two nearest hits have the same distance and one is reported exactly when the other is |
| Bvh.NearestReportsAnyHit | src/bvh.rs:512-513 | a nearest hit is reported exactly when some primitive is hit before the ray's `t_max` |
| Bvh.PrimIntersect | src/bvh.rs:181 | a primitive reports a hit exactly when it is hit below `t_max`, at its hit distance, which becomes the new, strictly smaller `t_max`; a miss leaves the ray alone |
| Bvh.Or | src/bvh.rs:181 | `or` is a hit when either side is, and prefers the new interaction |
| Bvh.IntersectEach | src/bvh.rs:176-182 | the loop `isect = prim.intersect(ray).or(isect)` leaves origin and direction alone, clears every primitive up to the new `t_max`, and reports either the old interaction with `t_max` unchanged or a hit at the new `t_max` |
| Bvh.IntersectList | src/bvh.rs:525-531 | the brute-force search over the list ends with the nearest hit and `t_max` lowered to its distance |
| Bvh.AnyHitIn | src/bvh.rs:519-523 | the brute-force test answers true exactly when some primitive is hit before `t_max` |
| Bvh.Boxes | src/bvh.rs:32-34 | the primitives' boxes, one per primitive, in order |
| Bvh.ContiguousInTree | src/bvh.rs:80-115 | a built tree covers exactly its range of positions and all its split axes are coordinate axes |
| Bvh.FitsWithin | src/bvh.rs:71-74 | under a fitting tree every position is placed and its box lies within the tree's box |
| Bvh.InAnyPush | src/bvh.rs:193-196 | stacking a subtree adds its positions to the pending ones |
| Bvh.TotalSizePush | src/bvh.rs:193-196 | stacking a subtree adds its node count to the pending node count |
| Bvh.FramesPop | src/bvh.rs:184-188 | popping the top of the stack keeps the stack's bookkeeping |
| Bvh.FramesPush | src/bvh.rs:191-198 | descending into one child and stacking the other keeps the stack's bookkeeping |
| Bvh.RestPop | src/bvh.rs:203-205 | once the current subtree is cleared, the top of the stack takes its place among the positions still to visit |
| Bvh.RestDone | src/bvh.rs:206-207 | once the current subtree is cleared and the stack is empty, every primitive is cleared |
| Bvh.RestPush | src/bvh.rs:191-198 | the positions of an interior node are those of its two children, whichever is visited first |
| Bvh.RestShrink | src/bvh.rs:181 | lowering `t_max` keeps every cleared position cleared |
| Bvh.PrunedCleared | src/bvh.rs:201-208 | a subtree whose box the ray misses holds no primitive the ray hits before its `t_max` |
| Bvh.LeafCleared | src/bvh.rs:175-182 | a leaf whose primitives are cleared is a cleared subtree |
| Bvh.ReportsWiden | src/bvh.rs:176-182 | a hit reported from a leaf's primitives is a hit on one of all the primitives |
| Bvh.Infos | src/bvh.rs:32-34 | the enumerated records: record k has id k and the box of primitive k |
| Bvh.InfosIds | src/bvh.rs:32-34 | the enumerated ids are the positions, and each names the box it was made from |
| Bvh.PermutationOfIds | src/bvh.rs:48 | an ordering holding 0 .. n once each, in any order, is a permutation `apply_permutation` can follow |
| Bvh.TwoCopies | src/bvh.rs:48 | two equal entries give two copies in the multiset |
| Bvh.IdentityOnce | src/bvh.rs:48 | the positions 0 .. n hold each value at most once |
| Bvh.PlacedAfterPermutation | src/bvh.rs:48 | reordering the primitives by the ordering puts the box of the id at position k at position k |
| Bvh.BuiltTreeFacts | src/bvh.rs:32-48 | the built ordering is a permutation of the positions, the tree counts the primitives with contiguous leaves, and after reordering every leaf box holds its primitives' boxes |
| Bvh.Build | src/bvh.rs:25-59 | no primitives give no nodes and the empty box; otherwise the primitives are the same multiset, reordered by the ordering of `recursive_build`, the box is the root's, and the nodes are the root's preorder layout |
| Bvh.Reorder | src/bvh.rs:48 | the reordered primitives are the permuted input and the same multiset |
| Bvh.BoundsHoldPrims | src/bvh.rs:46 | the BVH's box holds the box of every primitive |
| Bvh.WalkStart | src/bvh.rs:165-168 | the walk starts at the root with an empty stack and no interaction |
| Bvh.WalkPush | src/bvh.rs:191-198 | going down an interior node and stacking the other child keeps the walk's invariant and lowers the nodes left to visit |
| Bvh.WalkPop | src/bvh.rs:184-205 | once the current subtree is cleared, going on with the top of the stack keeps the invariant and lowers the nodes left |
| Bvh.WalkDone | src/bvh.rs:186-207 | once the current subtree is cleared with an empty stack, the interaction found is the nearest |
| Bvh.WalkNode | src/bvh.rs:171-174 | the node at the current index is the current subtree's root, its leaf range lies inside the primitives, and an interior node's axis is a coordinate axis with room left on the stack |
| Bvh.VisitLeaf | src/bvh.rs:175-182 | the leaf case tries every primitive of the leaf, clears the leaf and keeps the found interaction a hit on the primitives |
| Bvh.Intersect | src/bvh.rs:157-212 | `intersect` returns a nearest hit over all primitives and lowers the ray's `t_max` to its distance, leaving origin and direction alone |
| Bvh.SliceHit | src/bvh.rs:231-233 | a hit on a leaf's slice is a hit on the primitives |
| Bvh.SliceMiss | src/bvh.rs:231-234 | a leaf slice with no hit is cleared up to `t_max` |
| Bvh.IntersectTest | src/bvh.rs:214-264 | `intersect_test` answers true exactly when some primitive is hit before the ray's `t_max` |
| Bvh.CompareWithList | src/bvh.rs:497-515 | for every ray the list's test agrees with its search, the BVH's test agrees with its search, the two tests agree, and both searches end at the same distance |
| Bvh.AnyHitSame | src/bvh.rs:515 | whether some primitive is hit depends only on which primitives there are |
| Bvh.TwoInfos | src/bvh.rs:424-429 | the enumerated records of two box-shaped primitives |
| Bvh.TwoPlan | src/bvh.rs:90-104 | two centroids that differ only in y are split on y, the lower one first |
| Bvh.PartitionPair | src/bvh.rs:96-99 | the partition of two primitives on either side of the midpoint |
| Bvh.OneFold | src/bvh.rs:71-74 | the fold over one primitive |
| Bvh.OneLeaf | src/bvh.rs:80-87 | a single finite primitive becomes a leaf with its own box |
| Bvh.TwoBoxes | src/bvh.rs:422-456 | two finite boxes with centroids apart only in y, the second lower, give the ordering [1, 0] and the flat tree: interior over both joined, split on y, second child at 2; then the lower leaf at 0; then the upper leaf at 1 |
| Bvh.TwoBoxExample | src/bvh.rs:422-456 | the source's two-box build gives exactly the three expected flat nodes |
| Sampler.SamplerState.constructor | src/sampler/mod.rs:59-71 | a new state is at sample 0 of pixel (0, 0) with no arrays and both offsets 0 |
| Sampler.SamplerState.StartPixel | src/sampler/mod.rs:73-78 | the pixel is recorded, its sample number and both offsets restart, and nothing else changes |
| Sampler.SamplerState.StartNextSample | src/sampler/mod.rs:80-85 | both offsets restart, the sample number goes up by one, and the answer is whether the new number is still below the sample count |
| Sampler.SamplerState.Request1dArray | src/sampler/mod.rs:87-90 | the length is recorded and an empty array is added for it, keeping lengths and arrays in step; nothing else changes |
| Sampler.SamplerState.Request2dArray | src/sampler/mod.rs:92-95 | the 2D request records its length and adds an empty array, nothing else changing |
| Sampler.SamplerState.Get1dArray | src/sampler/mod.rs:97-102 | the current sample's block of `len` entries of the array at the 1D offset, after which the offset moves to the next array |
| Sampler.SamplerState.Get2dArray | src/sampler/mod.rs:104-109 | the current sample's block of `len` points of the array at the 2D offset, after which that offset moves on |
| Sampler.PixelLoopCount | src/sampler/mod.rs:73-85 | `start_pixel` then `while start_next_sample()` runs its body one time fewer than the sample count, and never for a count of 0 |
| RandomSampler.RandomSampler.NewWithSeed | src/sampler/random.rs:13-19 | a new sampler keeps the sample count, starts the seeded stream at its first draw, and has sample counter 0 |
| RandomSampler.RandomSampler.StartPixel | src/sampler/random.rs:23-25 | the pixel is ignored and the counter restarts; the stream is untouched |
| RandomSampler.RandomSampler.StartNextSample | src/sampler/random.rs:27-30 | the counter goes up by one and the answer is whether it is at most the sample count |
| RandomSampler.RandomSampler.Get1d | src/sampler/random.rs:32-34 | the next draw of the stream, in [0, 1), consuming one draw |
| RandomSampler.RandomSampler.Get2d | src/sampler/random.rs:36-38 | the next two draws, x first, both in [0, 1), consuming two draws |
| RandomSampler.RandomSampler.CloneWithSeed | src/sampler/random.rs:48-51 | a fresh sampler with the same sample count, the newly seeded stream and counter 0 |
| RandomSampler.RandomSampler.SamplesPerPixel | src/sampler/random.rs:53-55 | the configured sample count |
| RandomSampler.RandomSampler.GetCameraSample | src/sampler/mod.rs:31-39 | a 2D draw offsets the pixel, then a 2D lens draw and a 1D time draw are taken in that order; the film position stays inside the pixel's unit square and five draws are used |
| RandomSampler.PixelSamples | src/sampler/random.rs:23-30 | with the random sampler's `<=` the per-pixel loop takes exactly the configured number of camera samples, all inside the pixel, using five draws each |
| Reflection.HasUnion | src/reflection/mod.rs:98-100 | a union of flags is contained in a filter exactly when each part is |
| Reflection.Quot | src/reflection/mod.rs:190 | float division is exact whenever the divisor is non-zero |
| Reflection.Divide | src/reflection/mod.rs:190 | dividing a spectrum by a non-zero float divides every sample by it |
| Reflection.SameHemisphereSigns | src/reflection/mod.rs:84-86 | z components of strictly the same sign share a hemisphere, strictly opposite signs do not, and the test is symmetric |
| Reflection.Refract | src/reflection/mod.rs:70-78 | refraction gives no direction exactly when the squared sine of the transmitted angle, `eta^2 max(0, 1 - cos^2)`, reaches 1 |
| Reflection.RefractNoTIR | src/reflection/mod.rs:70-78 | with a relative index whose square is below one, or at normal incidence, there is no total internal reflection |
| Reflection.Reflect | src/reflection/mod.rs:80-82 | about a unit normal the reflection keeps the component along the normal; about the local normal it keeps z and negates x and y, the direction specular reflection uses |
| Reflection.GetType | src/reflection/mod.rs:14-22 | every lobe is reflective or transmissive and never both, specular exactly for the two specular lobes, and reflective exactly for Lambertian, specular and microfacet reflection |
| Reflection.MatchesFlagsIffParts | src/reflection/mod.rs:98-100 | a lobe matches a filter exactly when the filter holds both its side (reflection or transmission) and its kind (diffuse, glossy or specular) |
| Reflection.SampleF | src/reflection/mod.rs:131-138 | every sample a lobe returns carries that lobe's own type |
| Reflection.CosineSampleF | src/reflection/mod.rs:131-138 | the default sample keeps x and y, moves z to wo's side when wo.z < 0, reports the lobe's own `f`, `pdf` and type at its direction, and a sample strictly above the surface ends in wo's hemisphere |
| Reflection.CosinePdf | src/reflection/mod.rs:140-146 | the default pdf is abs(cos theta_i) / pi on wo's side, zero on the other, and never negative |
| Reflection.GetEta | src/reflection/mod.rs:377-381 | the relative index is eta_b / eta_a when wo is above the surface and eta_a / eta_b otherwise |
| Reflection.F | src/reflection/mod.rs:176-438 | `f` is zero for both specular lobes, and microfacet transmission's is zero when wo and wi share a hemisphere |
| Reflection.Pdf | src/reflection/mod.rs:140-446 | `pdf` is zero for both specular lobes, the reflection lobes' across hemispheres, and microfacet transmission's within one hemisphere |
| Reflection.LambertianConstant | src/reflection/mod.rs:154-162 | Lambertian `f` is r / pi for every pair of directions, and its type is reflection plus diffuse |
| Reflection.SpecularReflectionDelta | src/reflection/mod.rs:176-197 | specular reflection's `f` and `pdf` are zero, and its sample always exists, mirrors wo about the normal and has pdf 1 |
| Reflection.SpecularTransmissionDelta | src/reflection/mod.rs:216-250 | specular transmission's `f` and `pdf` are zero, and its sample fails exactly when refraction with eta_i / eta_t (chosen by the side of wo) is totally reflected |
| Reflection.MicrofacetReflectionGuards | src/reflection/mod.rs:318-360 | microfacet reflection's `f` is zero at grazing angles or when wi + wo vanishes; its sample fails exactly when the reflected direction leaves wo's hemisphere; its pdf is zero across hemispheres |
| Reflection.MicrofacetTransmissionGuards | src/reflection/mod.rs:387-438 | microfacet transmission's `f` and `pdf` are zero within one hemisphere; its sample fails at wo.z = 0 or when the sampled half vector faces away; a sample carries the lobe's own `f` and `pdf` at its direction |
| Bsdf.LobeDispatch | src/reflection/bsdf.rs:80-108 | the trait calls the BSDF makes are the lobes' own `f`, `pdf` and `sample_f` |
| Bsdf.WhereMembers | src/reflection/bsdf.rs:144 | the filter keeps exactly the lobes that pass the test |
| Bsdf.WhereAppend | src/reflection/bsdf.rs:144 | filtering a concatenation filters each part |
| Bsdf.Matching | src/reflection/bsdf.rs:143-145 | `iter_matching` yields exactly the lobes whose type the flags contain, never more than the lobes |
| Bsdf.NumComponents | src/reflection/bsdf.rs:52-54 | the component count is the number of lobes `iter_matching` yields, never more than the lobes |
| Bsdf.NoComponents | src/reflection/bsdf.rs:52-54 | no component matches exactly when no lobe's type is contained in the flags |
| Bsdf.MatchingAppend | src/reflection/bsdf.rs:48-54 | adding a lobe adds it to the matching ones, and to the count, exactly when its type matches |
| Bsdf.Values | src/reflection/bsdf.rs:80 | the lobes' values at (wo, wi), one per lobe, in order |
| Bsdf.PdfSum | src/reflection/bsdf.rs:134 | a sum of non-negative lobe pdfs is non-negative |
| Bsdf.Others | src/reflection/bsdf.rs:105-108 | the matching lobes other than the picked one: one fewer, in order, and together with the picked one the same multiset |
| Bsdf.PdfSumAppend | src/reflection/bsdf.rs:134 | the pdf sum over a concatenation is the sum of the two parts' sums |
| Bsdf.PdfSumOthers | src/reflection/bsdf.rs:105-109 | the picked lobe's pdf plus the other matching lobes' pdfs is the pdf sum over all matching lobes |
| Bsdf.ChosenIndex | src/reflection/bsdf.rs:89 | the picked component index always lies below the number of matching lobes |
| Bsdf.ChosenIndexOfUnitSample | src/reflection/bsdf.rs:89-94 | for a sample in [0, 1) the pick is floor(u0 n) and the remapped sample lies again in [0, 1) |
| Bsdf.Bsdf.constructor | src/reflection/bsdf.rs:31-46 | a new BSDF has the given eta and normals, the frame vectors normalize(dpdu) and normalize(ns x ss), and no lobes |
| Bsdf.Bsdf.Add | src/reflection/bsdf.rs:48-50 | `add` appends the lobe at the end and leaves eta and the frame alone |
| Bsdf.Bsdf.WorldToLocal | src/reflection/bsdf.rs:56-58 | in an orthonormal frame `world_to_local` sends ss, ts and ns to the three coordinate axes |
| Bsdf.Bsdf.LocalToWorld | src/reflection/bsdf.rs:60-65 | in an orthonormal frame `world_to_local` undoes `local_to_world` |
| Bsdf.Bsdf.F | src/reflection/bsdf.rs:67-82 | `f` is zero at grazing wo; otherwise each sample is the sum over the matching lobes on the side the geometric normal selects of their values at the local directions |
| Bsdf.Bsdf.Pdf | src/reflection/bsdf.rs:128-141 | `pdf` is zero at grazing wo or with no match; otherwise it times the match count is the pdf sum of the matching lobes, i.e. their mean |
| Bsdf.Bsdf.SampleF | src/reflection/bsdf.rs:85-126 | no match gives no sample; otherwise the sample fails exactly when the picked lobe's does or has pdf 0; its direction is the lobe's taken to world space with the lobe's type; a specular or only pick keeps the lobe's f and pdf (averaged when several match); a non-specular pick among several has the full sided f and the rescored pdf |
| Bsdf.Rescore | src/reflection/bsdf.rs:105-118 | the non-specular branch gives the sided sum of all matching lobes' values and the picked pdf plus the other matching pdfs, divided by the count |
| Bsdf.RescoredPdf | src/reflection/bsdf.rs:105-123 | when the picked lobe reports its own pdf, the rescored pdf is the mean pdf of all matching lobes |
| Bsdf.DotCombination | src/reflection/bsdf.rs:56-65 | dotting a combination of the frame vectors combines their dot products |
| Materials.NewBsdf | src/reflection/bsdf.rs:31-46 | a fresh BSDF with the given eta and no lobes |
| Materials.GlassRoughness | src/material/glass.rs:56-61 | glass's two roughnesses are remapped to alphas exactly when the material asks for it |
| Materials.ConstantGlassIsSpecular | src/material/glass.rs:39-48 | constant glass has zero roughness and no remap, so it is specular everywhere, with the given eta |
| Materials.GlassLobeTypes | src/material/glass.rs:69-90 | glass's reflection lobe reflects and its transmission lobe transmits, and each is specular exactly when the material is |
| Materials.ComputeGlass | src/material/glass.rs:52-93 | specular glass asked for multiple lobes gives no BSDF (the source panics); otherwise the BSDF has the glass's eta and a reflection lobe for non-black clamped r followed by a transmission lobe for non-black clamped t |
| Materials.PlasticSpecular | src/material/plastic.rs:32-45 | plastic's glossy lobe reflects ks through an isotropic Trowbridge-Reitz distribution, remapped when asked, with a dielectric Fresnel term from 1.5 to 1 |
| Materials.ComputePlastic | src/material/plastic.rs:25-48 | plastic's BSDF has eta 1 and a Lambertian lobe for non-black kd followed by the glossy lobe for non-black ks |
| Materials.MetalRoughness | src/material/metal.rs:39-50 | an isotropic metal uses one roughness for both axes; the remap applies to both axes or to neither |
| Materials.MetalLobe | src/material/metal.rs:51-62 | a metal's lobe reflects white through Trowbridge-Reitz with the metal's roughness and a conductor Fresnel term from vacuum to the metal's eta and k |
| Materials.ComputeMetal | src/material/metal.rs:38-65 | a metal's BSDF has eta 1 and exactly its one lobe |
| Materials.ComputeMirror | src/material/mirror.rs:22-30 | a mirror's BSDF has eta 1 and a single specular reflection of the clamped reflectance, or no lobe when that is black |
| Materials.ZeroSlotSum | src/reflection/bsdf.rs:80-81 | a sum of spectra that are all zero in one sample is zero there |
| Materials.ZeroPdfSum | src/reflection/bsdf.rs:134 | a sum of zero pdfs is zero |
| Materials.SpecularOnlyBsdfIsDelta | src/material/mirror.rs:22-30 | a BSDF whose lobes are all specular, as a mirror's or specular glass's, has zero `f` and zero `pdf` for every pair of directions and every filter |
| Materials.SpecularOnlyPdf | src/reflection/bsdf.rs:128-141 | every matching lobe of an all-specular BSDF has zero density, so its pdf is zero |
| Materials.SpecularOnlyF | src/reflection/bsdf.rs:67-82 | every lobe of an all-specular BSDF has zero value in every sample, so its `f` is zero |
| Spectrum.New | src/spectrum/mod.rs:114-116 | `new(v)` holds v in every one of the three samples |
| Spectrum.ArrayRoundTrip | src/spectrum/mod.rs:82-92 | the conversions to and from `[Float; 3]` are inverse to each other |
| Spectrum.PointwiseAt | src/spectrum/mod.rs:146-316 | every operator acts on each sample separately |
| Spectrum.Combine | src/spectrum/mod.rs:146-224 | `Spectrum op Spectrum` for `+`, `-`, `*` and `/` is the sample-by-sample result |
| Spectrum.CombineScalar | src/spectrum/mod.rs:270-316 | `Spectrum op Float` is the operator against the constant spectrum of the scalar |
| Spectrum.ScalarCombine | src/spectrum/mod.rs:242-264 | `Float * Spectrum` and `Float + Spectrum` are the operator with the constant spectrum on the left |
| Spectrum.Negate | src/spectrum/mod.rs:226-236 | negation is subtraction from black |
| Spectrum.CombineAssign | src/spectrum/mod.rs:158-224 | each compound assignment leaves the spectrum equal to the binary operator's result on its old value |
| Spectrum.PlusCommutes | src/spectrum/mod.rs:146-156 | spectrum addition commutes |
| Spectrum.TimesCommutes | src/spectrum/mod.rs:186-196 | spectrum multiplication commutes |
| Spectrum.Identities | src/spectrum/mod.rs:146-196 | black is the identity of `+` and `new(1.0)` that of `*`, on both sides |
| Spectrum.MinusUndoesPlus | src/spectrum/mod.rs:146-176 | subtracting what was added gives the spectrum back |
| Spectrum.OverUndoesTimes | src/spectrum/mod.rs:186-216 | dividing by a spectrum with no zero sample undoes multiplying by it |
| Spectrum.Clamp | src/spectrum/mod.rs:49-55 | every clamped sample lies in [low, high]; samples inside stay, those below become low and those above become high |
| Spectrum.ClampPositive | src/spectrum/mod.rs:57-59 | clamping to non-negative keeps non-negative samples and sets negative ones to 0 |
| Spectrum.ClampPositiveIsClamp | src/spectrum/mod.rs:57-59 | with an infinite upper bound the clamp agrees with any finite bound at least every sample |
| Spectrum.ClampIdempotent | src/spectrum/mod.rs:49-55 | clamping twice is clamping once |
| Spectrum.IsBlackScan | src/spectrum/mod.rs:61-66 | the scan answers true exactly when every sample is zero |
| Spectrum.IsBlackIffZero | src/spectrum/mod.rs:61-66 | a spectrum is black exactly when it equals `new(0.0)` |
| Spectrum.ClampPositiveBlack | src/spectrum/mod.rs:57-66 | a spectrum is black after the non-negative clamp exactly when none of its samples was positive |
| Spectrum.LerpEnds | src/spectrum/mod.rs:45-47 | the interpolation gives the first spectrum at t = 0 and the second at t = 1 |
| Spectrum.LerpAt | src/spectrum/mod.rs:45-47 | each sample of the interpolation is the scalar interpolation of the two samples |
| Spectrum.LerpOfEqual | src/spectrum/mod.rs:45-47 | interpolating a spectrum with itself gives it back for every t |
| Spectrum.SlotSumCons | src/spectrum/mod.rs:76-80 | the sum of one sample over a sequence splits off its head |
| Spectrum.FoldAddAt | src/spectrum/mod.rs:76-80 | each sample of the fold is the accumulator's sample plus the sum of that sample over the spectra |
| Spectrum.SumAt | src/spectrum/mod.rs:76-80 | each sample of `sum` is the sum of that sample over the spectra |
| Spectrum.SumOfNone | src/spectrum/mod.rs:76-80 | the empty sum is black |
| Spectrum.SumExample | src/spectrum/mod.rs:322-327 | `new(1.0)` and `[0.0, 1.0, 0.5]` sum to `[1.0, 2.0, 1.5]` |
| Spectrum.XyzToRgb | src/spectrum/mod.rs:4-10 | XYZ to RGB is the linear map with the fixed coefficients of each row |
| Spectrum.RgbToXyz | src/spectrum/mod.rs:12-18 | RGB to XYZ is the linear map with the fixed coefficients of each row |
| Spectrum.ToRgb | src/spectrum/mod.rs:122-124 | `to_rgb` gives exactly the coefficients the spectrum is built from |
| Spectrum.MatVecAdditive | src/spectrum/mod.rs:4-18 | a fixed three-by-three map of coefficients respects `+` |
| Spectrum.ConversionsAdditive | src/spectrum/mod.rs:4-18 | both colour-space conversions distribute over spectrum addition |
| Spectrum.ConversionsOfBlack | src/spectrum/mod.rs:4-18 | black converts to black both ways |
| Spectrum2.Tabulate | src/spectrum/spectrum2.rs:12-28 | the array of n samples whose slot i holds `init(i)` |
| Spectrum2.NewWith | src/spectrum/spectrum2.rs:12-28 | `new_with` writes every slot once, in order, ending with `init(i)` in slot i |
| Spectrum2.Zip | src/spectrum/spectrum2.rs:31-33 | `zip` keeps the length and slot i is f applied to the two slots i |
| Spectrum2.Binary | src/spectrum/spectrum2.rs:50-104 | the four binary operators apply the operator slot by slot |
| Spectrum2.BinaryAssign | src/spectrum/spectrum2.rs:58-112 | each compound assignment ends with the binary operator's result on the old value |
| Spectrum2.AddScalarAssign | src/spectrum/spectrum2.rs:123-129 | `+= k` adds k to every slot |
| Spectrum2.AddScalar | src/spectrum/spectrum2.rs:115-121 | the intended `+ k`: the length is kept and every slot has k added |
| Spectrum2.AddScalarAsWritten | src/spectrum/spectrum2.rs:115-121 | as written `+ k` multiplies: it is the slot-by-slot product with the constant spectrum of k |
| Spectrum2.AddScalarIsBinaryPlus | src/spectrum/spectrum2.rs:115-121 | adding a scalar is adding the constant spectrum of that scalar |
| Spectrum2.AddScalarAsWrittenDiffers | src/spectrum/spectrum2.rs:115-129 | as written `[1.0] + 1.0` is `[1.0]`, while `+=` gives `[2.0]` |
| Spectrum2.AddScalarAsWrittenAgrees | src/spectrum/spectrum2.rs:115-121 | the operator as written agrees with the intended addition exactly when every slot satisfies a k == a + k |
| Spectrum2.BinaryCommutes | src/spectrum/spectrum2.rs:50-88 | `+` and `*` commute |
| Spectrum2.MinusUndoesPlus | src/spectrum/spectrum2.rs:50-80 | subtracting what was added gives the spectrum back |
| Transform.MulVecIdentity | src/geometry/transform.rs:12-17 | the identity matrix fixes every homogeneous vector |
| Transform.MatMulIdentity | src/geometry/transform.rs:12-17 | the identity matrix is a unit of matrix multiplication on both sides |
| Transform.MulVecAssoc | src/geometry/transform.rs:138-144 | applying a product applies its right factor first, then its left one |
| Transform.MatMulAssoc | src/geometry/transform.rs:138-144 | matrix multiplication is associative, so composed transforms can be regrouped |
| Transform.InverseInvolution | src/geometry/transform.rs:105-107 | inverting twice gives the transform back, and the inverse of an inverse pair is one |
| Transform.InverseUndoes | src/geometry/transform.rs:105-107 | for an inverse pair, applying the transform and then its inverse gives every homogeneous vector back, and the other way round |
| Transform.InverseOfProduct | src/geometry/transform.rs:138-144 | the inverse of a product is the product of the inverses in reverse order, exactly |
| Transform.MulKeepsInversePair | src/geometry/transform.rs:138-144 | the product of two transforms whose matrices are inverse to each other again has inverse matrices |
| Transform.IdentityIsInversePair | src/geometry/transform.rs:101-103 | the identity transform's two matrices are inverse to each other |
| Transform.TranslateIsInversePair | src/geometry/transform.rs:53-57 | translating by d and by -d are inverse to each other |
| Transform.ScaleIsInversePair | src/geometry/transform.rs:59-63 | a scale with non-zero factors and the scale by their reciprocals are inverse to each other |
| Transform.ScaleHandedness | src/geometry/transform.rs:109-111 | a scale's determinant is the product of its factors, so it swaps handedness exactly when that product is negative |
| Transform.TranslateHandedness | src/geometry/transform.rs:109-111 | a translation has determinant 1 and never swaps handedness |
| Transform.IdentityHandedness | src/geometry/transform.rs:109-111 | the identity has determinant 1 and does not swap handedness |
| Transform.AffineDeterminant | src/geometry/transform.rs:109-111 | for a matrix with bottom row (0, 0, 0, 1) the determinant is that of its upper-left 3x3 block |
| Transform.SwapsHandedness | src/geometry/transform.rs:109-111 | for an affine matrix, handedness swaps exactly when the upper-left 3x3 determinant is negative |
| Transform.AffinePoint | src/geometry/transform.rs:207-209 | an affine matrix keeps w = 1, so the point transform needs no division |
| Transform.AffineMul | src/geometry/transform.rs:138-144 | the product of affine matrices is affine |
| Transform.AffineVector | src/geometry/transform.rs:159-163 | an affine matrix keeps w = 0 for vectors |
| Transform.ThenAppliesSelfFirst | src/geometry/transform.rs:113-115 | `a.then(b)` applies a first and then b, to vectors and to points |
| Transform.Then | src/geometry/transform.rs:113-115 | `then` of two affine transforms is affine |
| Transform.IdentityFixes | src/geometry/transform.rs:426-433 | the identity transform fixes every point and every vector |
| Transform.ScaleAfterTranslate | src/geometry/transform.rs:396-424 | `scale(s, s, s) * translate(d)` sends a point p to s (p + d) and a vector v to s v |
| Transform.TranslateMoves | src/geometry/transform.rs:53-57 | a translation moves points by d and leaves vectors alone |
| Transform.ScaleStretches | src/geometry/transform.rs:59-63 | a scale multiplies each coordinate of points and vectors by its factor |
| Transform.CameraLookAtFrame | src/geometry/transform.rs:34-51 | the camera transform sends the origin to the camera position and the z axis to the normalised direction to the target |
| Transform.CrossPerpendicular | src/geometry/transform.rs:34-47 | a cross product is perpendicular to both factors, which makes the look-at frame's up axis perpendicular to the others |
| Transform.LookAt | src/geometry/transform.rs:34-47 | `look_at`'s forward matrix is the inverse transform of its frame, and the frame's up axis is perpendicular to its direction and right axes |
| Transform.CameraLookAt | src/geometry/transform.rs:49-51 | `camera_look_at` is the look-at frame itself with the inverse transform of it as inverse, its up axis perpendicular to the viewing direction and the right axis |
| Transform.NormalDotVector | src/geometry/transform.rs:117-123 | the corrected normal against a transformed vector equals the normal against the vector taken through `invt * t` |
| Transform.TransformNormal | src/geometry/transform.rs:117-123 | corrected: the normal's product with any vector u is n against `invt` applied to u, i.e. the transpose of `invt` applied to n |
| Transform.TransformNormalAsWritten | src/geometry/transform.rs:117-123 | as written the normal agrees with the corrected one whenever the 3x3 block of `invt` is symmetric |
| Transform.NormalStaysPerpendicular | src/geometry/transform.rs:117-123 | with inverse matrices, a normal perpendicular to a vector stays perpendicular to it after both are transformed |
| Transform.ShearIsInversePair | src/geometry/transform.rs:117-123 | the shear `x += k y` and `x -= k y` form an affine inverse pair |
| Transform.TransformNormalAsWrittenTilts | src/geometry/transform.rs:117-123 | under a shear by k, the normal of the x axis transformed as written has dot product -k with the transformed axis; the corrected one has 0 |
| Transform.FoldJoinPointBounds | src/geometry/transform.rs:258-265 | the fold of `join_point` contains its start and every point, and lies inside every box that does |
| Transform.MapPoints | src/geometry/transform.rs:259-263 | the corners mapped one for one through the point transform |
| Transform.TransformBounds | src/geometry/transform.rs:258-265 | a transformed box holds the eight transformed corners and, when they are finite, is the smallest box that does |
| Triangle.Map | src/shapes/triangle.rs:42-58 | the sequence of images, one for one, in order |
| Triangle.MapInPlace | src/shapes/triangle.rs:42-58 | the in-place loop rewrites every slot once through f, keeping the length |
| Triangle.NTriangles | src/shapes/triangle.rs:39 | the triangle count is the index count divided by 3 once it is below 2^32; it never needs more indices than exist |
| Triangle.FirstError | src/shapes/triangle.rs:38-62 | no error exactly when the index count is a multiple of 3 and every optional buffer present has one entry per vertex; the index check runs first and the normals' second |
| Triangle.Rewrite | src/shapes/triangle.rs:42-58 | a copy of the buffer rewritten in place ends as the map of the buffer |
| Triangle.NewMesh | src/shapes/triangle.rs:29-74 | `new` fails exactly when one of its four `assert_eq!`s does, with the first; otherwise the mesh keeps the invariant, the indices, tex coords, orientation and transform, has `len / 3` triangles, and its vertices, tangents and normals are the inputs moved to world space one for one, the normals by `transform_normal` as written |
| Triangle.IterTriangles | src/shapes/triangle.rs:76-81 | `iter_triangles` yields one triangle per id `0..n_triangles`, in order, all on the same mesh |
| Triangle.IterTrianglesHaveIndices | src/shapes/triangle.rs:76-103 | every triangle the iterator yields can read its three index slots |
| Triangle.VertexIndices | src/shapes/triangle.rs:96-103 | a triangle's indices are the three consecutive slots starting at 3 id |
| Triangle.IndicesTileBuffer | src/shapes/triangle.rs:96-103 | the index lists of the first n triangles, one after another, are the first 3n slots of the buffer |
| Triangle.AllTrianglesCoverBuffer | src/shapes/triangle.rs:38-103 | below 2^32 indices, the triangles of a mesh read its whole index buffer, each slot once |
| Triangle.GetVertices | src/shapes/triangle.rs:105-111 | the three vertices are those at the triangle's indices |
| Triangle.GetNormals | src/shapes/triangle.rs:121-129 | no normals exactly when the mesh has none, else the normals at the triangle's indices |
| Triangle.GetUvs | src/shapes/triangle.rs:131-144 | the default (0, 0), (1, 0), (1, 1) without tex coords, else the tex coords at the triangle's indices |
| Triangle.WorldBoundTight | src/shapes/triangle.rs:151-157 | the world bound holds the three vertices and lies within every box that holds them |
| Triangle.SignDiffersMatchesBook | src/shapes/triangle.rs:428-434 | away from zeros and NaNs it agrees with the book's test; with a negative zero it does not |
| Triangle.SignDiffersCases | src/shapes/triangle.rs:441-450 | the eight cases of the source's sign test, on the bit patterns of the floats |

## Left out

- Floating point is not modelled: `Float` is `real`, so rounding, infinities and NaNs are absent. `Spectrum::has_nans` is left out for that reason.
- `sqrt`, `normalize`, `tan`, `log2` of a float, `cosine_sample_hemisphere`, `Fresnel::evaluate`, the microfacet distribution's `d`, `g`, `pdf` and `sample_wh`, `roughness_to_alpha`, texture evaluation and `inverse_transform` are function parameters. Only what the code does around them is modelled. `Spectrum::sqrt` is left out for the same reason.
- Reflection.SameHemisphereSigns: `same_hemisphere` compares sign bits. Over reals, z >= 0 stands for a clear sign bit, so the case of a -0.0 component is not captured.
- The `Fresnel` and `MicrofacetDistribution` types of `src/reflection/fresnel.rs` and `src/reflection/microfacet.rs` are not part of this model beyond the parameters above. `OrenNayar` is not modelled.
- Materials.ComputeGlass: the `todo!()` for rough glass that asks for multiple lobes becomes `None`, since a panic has no value.
- Bsdf.Bsdf.Add requires fewer than 8 lobes. The `ArrayVec` of capacity 8 panics on a ninth push.
- `SurfaceInteraction` and the shading frame's construction from a hit are not modelled. The BSDF takes its normals and `dpdu` as inputs.
- Spectrum.Combine requires non-zero divisors for `/`. A division by zero would give an infinity or a NaN, which reals lack.
- Spectrum2.Binary and Spectrum2.BinaryAssign require a divisor with no zero slot for `/`, for the same reason: the source allows it and yields an infinity or a NaN.
- Spectrum.Clamp requires `low <= high`. `f32::clamp` panics otherwise, so the model leaves that case out.
- Bvh.Build requires at most 65535 primitives. This stands for the `u16` count of a leaf and the `u32` offsets.
- Bvh.Intersect requires a tree of depth at most 64. This stands for the 64-entry `ArrayVec` stack, which panics on overflow.
- Bvh.IntersectTest requires a tree of depth at most 64, for the same 64-entry stack.
- Primitives are abstract: a world bound and a hit function answering the distance of the nearest hit below `t_max`. The ray-box slab test is a parameter assumed conservative, meaning it never rejects a box that a hit lies in. `Bounds3::intersect_test` and `inverse_dir` are not modelled.
- `&mut Ray` is passed by value and returned. A hit is reduced to its primitive and distance.
- The partition of `recursive_build` works on values. The midpoint `partition` is a stable filter and `partition_at_index_by` is an insertion sort on the split axis. Both give the source's split counts and keep every key of the first side at most every key of the second. The source's in-place versions are not stable: among primitives with equal keys, which side each lands on in the equal-counts split and the order within each side can differ from the model, so the model's primitive ordering and leaf order can differ from the source's on ties.
- The SAH split method is `unimplemented!` in the source and is not modelled.
- Permutation.ApplyPermutation requires `indices` to be a permutation of `0..n` of the same length as `items`. The source's `assert_eq!` checks only the lengths. With same-length indices that are not a permutation, the source goes on: it either panics later on an out-of-range index in `swap` or ends with items that are not the intended reordering. The model does not capture that case.
- The `Mutex` around the film's pixels, the tile-parallel render loop and all concurrency are left out. Tiles are merged one at a time.
- Film.Film.constructor: the cropped bounds are computed with real ceilings. The `i32` casts and their saturation are not modelled, and the resolution must be non-negative.
- Film.Film.AddSampleToTile requires the clipped footprint to be ordered, since the `as usize` of a negative extent would wrap.
- Lanczos `resample_weights` and `lanczos_sinc` are left out. Their weight tables are a parameter of the resampling passes.
- MIP map levels are row-major values `Level(w, h, texels)`. The blocked layout of the source's levels is proved separately on the blocked array.
- MipMap.New requires an image of at least one texel per side, and each side below 2^63 so that rounding up to a power of two stays within `usize`.
- `get_mipmap`, `make_mirror_material`, `make_matte`, the checkerboard and `uv` texture constructors, `make_triangle_mesh_from_ply` and the light constructors other than the diffuse area light lie outside this model.
- `get_texture_or_default` and `get_texture_or_const` are not among the source files of this model. They are modelled as `TextureLookup`, as read from their uses in the constructors.
- Texture and material values in the dictionary are `Arc<dyn …>` handles, modelled as numbers. `type_name` strings are modelled as fixed labels.
- `Float`'s `Lerp` implementation is taken to be `(1 - t) a + t b`, as `Spectrum::lerp` computes it.
- The `Xoshiro256Plus` generator is an abstract seeded stream of numbers in [0, 1).
- RandomSampler requests for sample arrays are `unimplemented!` in the source and are not modelled. `get_1d_array`, `round_count` and `set_sample_number` have no implementation in `src/sampler/random.rs` and are not modelled either.
- Transform: `rotate_x`, `rotate_y` and `rotate_z` (trigonometry), `fit_to_bounds` (a magnitude), `perspective` (a tangent) and `from_mat` (a matrix inversion) are not modelled. The error-bound transforms and the transforms of rays, ray differentials and surface interactions are not modelled either.
- Transform.TransformBounds: the order in which `iter_corners` yields the corners is not among the source files of this model. The property is stated independently of that order.
- Triangle.GetVertices, Triangle.GetNormals and Triangle.GetUvs require every index of the triangle to lie inside the vertex buffer (`Triangle.Indexable`). `TriangleMesh::new` never checks the index values, and an out-of-range index panics in the source; the model leaves that case out.
- Triangle: `intersect`, `area`, `sample` and `get_vertices_as_vectors` are floating-point geometry and are not modelled. `object_bound` and `world_to_object` are `unimplemented!`.
- Triangle.NewMesh: the `u32` indices are kept as numbers below 2^32. The count `len as u32 / 3` is modelled with the truncation to 32 bits.

- Blocked.BlockedArray.New requires `data.len() == u_size * v_size`. The source checks this with `assert_eq!` and panics otherwise.
- IdArena.Arena.Insert requires fewer than 2^32 - 1 items before the push, so that the new length fits in `u32`. Beyond that the source's `as u32` truncates, and `unwrap` panics when the truncated length is 0.
- Film.CroppedBounds requires an ordered crop window, with min at most max on both axes. The source does not check this; an inverted window gives an inverted pixel box.
- Transform.Scale requires non-zero factors. The source divides by them for the inverse and would produce infinities.
- Triangle.NewMesh requires each vertex to have a defined projective divide (`w` not zero, the predicate `Triangle.PointDefined`). The source would divide by zero there.
- Bsdf.Others removes the picked lobe by its index, where the source filters with `std::ptr::eq`. The two differ only when the same lobe reference was added twice; the source then drops both copies.
- Bounds: `Bounds2i` coordinates are unbounded integers, where the source uses `i32`. The extents of `Bounds.Dimensions`, the `area` product and the tile ends `x + tile_size` of `iter_tiles` cannot overflow in the model; the source's overflow (a panic in debug builds, wrap-around in release builds) is not captured.
- Params: the `Int` variant holds unbounded integers, where the source holds `i32`. Values outside the `i32` range cannot arise from the source's parser and are not excluded by the model.
- The as-written behaviour is what the rest of the model uses: `MipMap.New` resamples with the vertical pass in place, `Film.Film.GetFilmTile` uses the tile span as written, `MipMap.LookupTrilinear` uses the filter width as written, `Triangle.NewMesh` transforms normals as written and `Constructors.MakeTriangleMesh` reads texture coordinates as written. The corrected members of the findings below are stated beside them, with the intended property proved and the agreement or difference with the as-written member shown.

## Findings

| source | as written | input that shows it | evidently intended | confidence | as-written member | corrected member |
|---|---|---|---|---|---|---|
| src/film.rs:100-101 | the tile's upper y bound subtracts the filter radius, while the x bound adds it | radius 1.5, sample bounds (0,0)-(2,2), sample at (1.5, 1.9): its footprint reaches pixel (1, 2), outside the span | `+ radius.y`, as for x | high, not executed | Film.TileSpanAsWrittenMisses | Film.TileSpan |
| src/spectrum/spectrum2.rs:115-121 | `Add<Float>` multiplies every slot by the scalar | `[1.0] + 1.0` gives `[1.0]`, while `+= 1.0` gives `[2.0]` | add the scalar to every slot, as `AddAssign<Float>` does | high, not executed | Spectrum2.AddScalarAsWrittenDiffers | Spectrum2.AddScalarIsBinaryPlus |
| src/loaders/constructors.rs:65-79 | the float-array fallback for `uv` and `st` reads names that the point-array reads already removed | a dictionary with `uv` = [0.0, 1.0] as floats gives no texture coordinates | the pairs of the float array, here the point (0, 1) | high, not executed | Constructors.FloatTexCoordsLost | Constructors.TexCoords |
| src/id_arena.rs:48-54 | `try_index(k)` reads slot k, while ids store the slot plus one | an arena holding one item: `try_index(0)` and `try_index(1)` are both `None` | look up slot `k - 1` for the 1-based id value k | medium, not executed | IdArena.TryIndexMissesOnlyItem | IdArena.TryIndexByIdFindsEveryId |
| src/mipmap.rs:86-103 | the vertical resampling pass writes each new row into the same image that later rows still read from | four weights of 0.25, first texels -2 and -1, column [1, 0, 0, 0], h = 3, Clamp: row 1 comes out 0.375 instead of 0.5 | read the original rows, as the horizontal pass does | high, not executed | MipMap.InPlaceColumnDiffers | MipMap.ResampleColumns |
| src/mipmap.rs:160 | the filter width takes `dst0.y` without its absolute value | `dst0 = (0, -1)`, `dst1 = (0, 0)`: width 0 instead of 1 | the largest of the four absolute differentials | high, not executed | MipMap.FilterWidthAsWrittenDiffers | MipMap.FilterWidth |
| src/geometry/transform.rs:117-123 | `transform_normal` indexes the column-major `invt` so that it applies `invt` itself, not its transpose | the shear x += k y with k != 0: the normal (0, 1, 0) of the x axis ends with dot product -k against the transformed axis | apply the transpose of the inverse, as the comment says | high, not executed | Transform.TransformNormalAsWrittenTilts | Transform.NormalStaysPerpendicular |
