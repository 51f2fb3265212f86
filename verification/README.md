# meas_mosaic in Dafny

This project models the bookkeeping around the meas_mosaic solver. meas_mosaic
fits one astrometric and photometric solution over many exposures ("visits")
of a multi-CCD camera. The solver itself (kd-tree merging, the least-squares
fit) is not modelled. What is modelled is the code that feeds it and the code
that uses its results:

- **Run setup** (`MosaicTask.run`). The visit, CCD and filter ids come from the
  data references, each listed once in first-seen order. A run must cover
  exactly one filter. The colour-term device depends on the camera.
- **Ingest** (`MosaicTask`):
  - `readCcd` recentres the CCD set on the mean CCD centre.
  - `readWcs` takes one WCS per visit, from its first complete CCD.
  - `removeNonExistCcd` erases CCDs that have no data.
  - `selectStars` and `getAllForCcd` select stars, with the colour-term
    rewrite and the saturated-match fallback.
  - `readCatalog` builds the per-visit source and match lists.
  - `checkInputs` drops empty visits.
  - `countObsInSourceGroup` counts observations.
- **Fit products**:
  - `getExtent` finds the largest focal-plane extent.
  - The flux-fit domain is rounded up from that extent.
  - The write loops of `writeNewWcs` and `writeFcr` store one product per
    (visit, CCD) with zero point `1/(fexp·fchip)`.
- **Applying the results** (`updateExposure.py`):
  - `getFluxKeys` finds the flux and flux-error fields, in the LSST and the
    HSC naming conventions.
  - `applyCalib` builds the output schema through an afw `SchemaMapper`,
    renaming `instFlux` to `mag`, and sets the aliases.
  - `applyMosaicResultsCatalog` multiplies the flux columns by the
    correction, optionally adding a `mosaic_corr` column.
  - `applyMosaicResultsExposure` and `getFluxFitParams` track the quarter
    turns between the camera's pixel frame and the fit frame.
- **The camera-geometry shim** (`src/shimCameraGeom.cc`):
  - `getYaw`.
  - The centres in focal-plane and detector pixels.
  - `detPxToFpPxRot` and `computeX0Y0`.

Modelling conventions:

- **Maps.** The C++ `std::map` containers (`WcsDic`, `CcdSet`, the `fexp` and
  `fchip` maps) are key-sorted association lists (`OrderedMap`). Their
  `keys()` and `values()` therefore iterate in key order.
- **Exceptions** become `Result` or `Option` values.
- **The data-access layer** (the Butler) becomes a record of functions.
  Examples are "do all four datasets exist for this (visit, CCD)" and "the
  WCS read for this (visit, CCD)".
- **Floating-point reals** are Dafny `real`s. Where NaN matters (a finite
  right ascension, `x < 0.5` on a NaN, `refFlux == refFlux`), the `Float`
  datatype carries NaN and the infinities explicitly.
- **Integer remainders.** Python `%` with a positive divisor agrees with
  Dafny's `%`. C++ `%` truncates and is modelled as `CameraGeom.CRem`.
- **Schema mapper.** `SchemaMapper` models the part of afw's
  `SchemaMapper` that `applyCalib` relies on. Each input field has at most
  one output field. Mapping an input a second time replaces its output field,
  because afw reuses the output key. A name held by another input's field is
  refused (afw's InvalidParameterError). Inputs are identified by their
  names, which afw keeps unique within a schema.
- **Trigonometry.** cos and sin come from an oracle. The lemmas that need
  rotation facts assume cos² + sin² = 1.

Behaviours of the code that are easy to misread:

- **Domain rounding.** `(floor(x/10) + 1)·10` is strictly above the extent:
  an extent of 20 gives 30, not 20. Under Python 2, `floor(-inf)` is
  `-inf`, so an empty match vector leaves the domain at `-inf`.
- **Match lists.** Selection on a match list does not look at the deblend
  child count. The PSF-star flag admits a match even when it is extended.
  A match without a measured side makes the whole selection raise.
- **HSC flux/error overlap.** A name can be both an HSC flux name and the
  `_err` companion of another flux name, e.g. with `flux_a`, `flux_a_err`
  and `flux_a_err_err`. Its column is then multiplied twice. The model
  counts the occurrences of each name among the keys instead of assuming
  one; `ApplyResults.HscOverlapScaledTwice` works the example through.

## Model

| member | source | states |
|---|---|---|
| RunSetup.FirstSeen | python/lsst/meas/mosaic/mosaicTask.py:1017-1025 | the result lists each value of the input exactly once, nothing else, ordered by first occurrence, so its length is the number of distinct values |
| RunSetup.Run | python/lsst/meas/mosaic/mosaicTask.py:1011-1044 | succeeds exactly when there are references and they all share one filter; the frame and CCD ids are the first-seen lists; a failure reports the number of distinct filters (lines 1027-1028), which is other than one, zero exactly for no references; the colour-term device (lines 1031-1042) is Hamamatsu for "suprimecam", MIT for "suprimecam-mit" and none for any other camera |
| RunSetup.OneFilterCheck | python/lsst/meas/mosaic/mosaicTask.py:1022-1029 | the first-seen filter list has exactly one entry exactly when there are references sharing one filter (that filter), and none exactly when there are no references |
| RunSetup.SingleValue | python/lsst/meas/mosaic/mosaicTask.py:1027-1029 | a first-seen list of a non-empty constant sequence has exactly one element, so one shared filter passes the one-filter test |
| OrderedMap.Insert | python/lsst/meas/mosaic/mosaicTask.py:138 | assignment into a map keeps it key-sorted, holds the new entry and keeps every entry with another key |
| OrderedMap.InsertAbove | python/lsst/meas/mosaic/mosaicTask.py:350-352 | inserting a key above all present keys appends, so a map filled in key order iterates in insertion order |
| StarSelection.SelectCatalogStars | python/lsst/meas/mosaic/mosaicTask.py:160-171 | the selection keeps rows in order, and a row is kept exactly when extendedness < 0.5, not saturated and no deblend children (0 when the column is missing) |
| StarSelection.SelectListStars | python/lsst/meas/mosaic/mosaicTask.py:173-190 | on a plain record list a record is kept, in order, exactly when extendedness < 0.5 and it is unsaturated or saturated ones are included |
| StarSelection.SelectMatchStars | python/lsst/meas/mosaic/mosaicTask.py:173-190 | on a match list the selection fails exactly when some match lacks its measured side; otherwise a match is kept exactly when it is a PSF star or has extendedness < 0.5, and is unsaturated unless saturated ones are included |
| StarSelection.SaturatedSelectionContains | python/lsst/meas/mosaic/mosaicTask.py:184-190 | including saturated matches fails on the same inputs and keeps every match the unsaturated selection keeps |
| StarSelection.ZeroReferenceFluxDropsCcd | python/lsst/meas/mosaic/mosaicTask.py:221-224 | a single reference side with a zero primary-band flux makes the whole CCD give nothing |
| StarSelection.ChooseMatches | python/lsst/meas/mosaic/mosaicTask.py:233-237 | the unsaturated selection is used when it has at least ten matches, otherwise the saturated-inclusive one; the result contains the unsaturated one, and holds a saturated match only under the fallback |
| StarSelection.ApplyColorTerm | python/lsst/meas/mosaic/mosaicTask.py:211-230 | fails exactly when the reference schema cannot come from the first two matches or some reference side has a band flux that makes log10 raise (zero, negative or -inf) or an arithmetic step that raises; on success no band flux of a reference side is such a value, each match keeps its measured side, and its reference side gets the corrected flux or is dropped when that flux is NaN |
| StarSelection.GetAllForCcd | python/lsst/meas/mosaic/mosaicTask.py:192-242 | no data, or a colour term that fails (no readable reference schema, or a raising log10 caught at lines 238-240), gives nothing; otherwise it succeeds exactly when every match has a measured side, returning the CCD's WCS, the selected sources and the chosen matches of the colour-corrected list, every one with a measured side |
| Ingest.BuildCcdSet | python/lsst/meas/mosaic/mosaicTask.py:82-85 | the CCD set is sorted, has exactly the requested ids as keys and maps each id to the camera's CCD |
| Ingest.ReadCcd | python/lsst/meas/mosaic/mosaicTask.py:79-104 | fails exactly on no CCD ids; otherwise the set keeps keys, pixel sizes and sizes; every CCD's recentred centre (half-size shift undone) is its camera centre minus one and the same mean of all camera centres, and these sum to zero |
| Ingest.MeanCenter | python/lsst/meas/mosaic/mosaicTask.py:87-94 | the mean times the number of CCDs is the sum of the centres in pixels |
| Ingest.CenteredOnMean | python/lsst/meas/mosaic/mosaicTask.py:96-102 | after shifting every CCD by the mean, the centres relative to the mean sum to zero |
| Ingest.FirstComplete | python/lsst/meas/mosaic/mosaicTask.py:122-132 | finds the first CCD, in set order, with all four datasets, or reports that no CCD has them |
| Ingest.ReadWcs | python/lsst/meas/mosaic/mosaicTask.py:117-140 | the WCS map is sorted and has exactly the visits with a complete CCD; each WCS is the first complete CCD's WCS shifted by that CCD's centre; a failure comes from an unreadable WCS |
| Ingest.VisitWcsIsVisitWcs | python/lsst/meas/mosaic/mosaicTask.py:133-138 | a stored WCS is the first complete CCD's WCS with the reference pixel moved by the CCD centre |
| Ingest.CountComplete | python/lsst/meas/mosaic/mosaicTask.py:143-154 | the count is zero exactly when the CCD is complete in none of the visits, and at most the number of visits |
| Ingest.RemoveNonExistCcd | python/lsst/meas/mosaic/mosaicTask.py:142-158 | the result is a sorted subsequence of the CCD set holding exactly the CCDs complete in some visit of the WCS map |
| Ingest.RowsToObs | python/lsst/meas/mosaic/mosaicTask.py:256-261 | exactly the selected sources with a finite right ascension are kept, tagged with visit and CCD |
| Ingest.MatchesToObs | python/lsst/meas/mosaic/mosaicTask.py:262-267 | exactly the matches with both sides present are kept, the reference side carrying the CCD's WCS and the measured side tagged |
| Ingest.ReadCatalog | python/lsst/meas/mosaic/mosaicTask.py:244-271 | one source list and one match list per visit, in visit order; each holds exactly the kept sources or matches of that visit's CCDs |
| Ingest.KeptFrames | python/lsst/meas/mosaic/mosaicTask.py:350-351 | the kept indices are increasing and are exactly the indices, up to the shortest list, of visits with a source or a match |
| Ingest.CheckInputs | python/lsst/meas/mosaic/mosaicTask.py:346-355 | the three outputs stay aligned, each the inputs at the kept indices; the WCS map stays sorted and every kept visit has a source or a match |
| Ingest.CountObsInSourceGroup | python/lsst/meas/mosaic/mosaicTask.py:273-278 | the count is the number of entries minus the number of groups; it is non-negative when no group is empty |
| FitProducts.GetExtent | python/lsst/meas/mosaic/mosaicTask.py:335-344 | -inf exactly for no observations; otherwise the largest absolute u (and v): a bound attained by some observation |
| FitProducts.RoundUpDomain | python/lsst/meas/mosaic/mosaicTask.py:975-977 | the domain is a multiple of ten, strictly above the extent and at most ten above it; -inf stays -inf |
| FitProducts.RoundUpDomainLeast | python/lsst/meas/mosaic/mosaicTask.py:976-977 | no multiple of ten strictly above the extent is below the rounded domain |
| FitProducts.Scale | python/lsst/meas/mosaic/mosaicTask.py:308 | the scale exists exactly when the visit and the CCD both have a fitted factor, and is their product |
| FitProducts.PairsOfIndex | python/lsst/meas/mosaic/mosaicTask.py:303-304 | the nested loops visit (visits[i], ccds[j]) at position i·\|ccds\| + j |
| FitProducts.WriteProducts | python/lsst/meas/mosaic/mosaicTask.py:300-316 | each written pair gets zero point 1/scale; the loop runs to the end exactly when every pair is written, else it stops at a pair with a missing or zero scale |
| FitProducts.WriteProductsComplete | python/lsst/meas/mosaic/mosaicTask.py:303-311 | when every pair has a non-zero scale, every pair is written |
| FitProducts.WriteProductsSameZeroPoints | python/lsst/meas/mosaic/mosaicTask.py:317-333 | whether the puts succeed does not change where the loop stops or the zero points |
| FitProducts.WriteAll | python/lsst/meas/mosaic/mosaicTask.py:1003-1004 | the FCR loop runs exactly when the WCS loop completes; then it writes the same pairs with the same zero points |
| FluxKeys.NamesWhere | python/lsst/meas/mosaic/updateExposure.py:272-278 | a name is selected exactly when the schema has a field of that name passing the test |
| FluxKeys.NamesWhereNoDup | python/lsst/meas/mosaic/updateExposure.py:272-278 | a schema without repeated names gives a selection without repeats |
| FluxKeys.GetFluxKeys | python/lsst/meas/mosaic/updateExposure.py:262-290 | fails exactly when no field qualifies. LSST: the non-flag, non-slot "*_instFlux" fields and exactly the present F+"Err" for those F. HSC: the pattern-matching, non-apcorr names with an "_err" companion, and those companions |
| FluxKeys.LsstErrNameIff | python/lsst/meas/mosaic/updateExposure.py:276-278 | "*_instFluxErr" whose stem is a flux name is the same as a flux name followed by "Err" |
| FluxKeys.HscFluxNames | python/lsst/meas/mosaic/updateExposure.py:280-283 | the HSC flux keys are exactly the schema names passing the two patterns with an "_err" companion |
| FluxKeys.LsstFluxAndErrDisjoint | python/lsst/meas/mosaic/updateExposure.py:267-278 | in the LSST convention no name is both a flux key and an error key |
| FluxKeys.RenameAppend | python/lsst/meas/mosaic/updateExposure.py:229 | replacing "instFlux" distributes over a concatenation whose second part cannot start or continue the pattern |
| FluxKeys.ReplaceAppend | python/lsst/meas/mosaic/updateExposure.py:229 | str.replace distributes over a concatenation whose second part starts with a character outside the pattern, since no occurrence can straddle the seam |
| FluxKeys.RenameErrorName | python/lsst/meas/mosaic/updateExposure.py:240-245 | renaming flux+error suffix equals the renamed flux plus the error suffix |
| FluxKeys.RenameFluxName | python/lsst/meas/mosaic/updateExposure.py:229 | P+"_instFlux" is renamed to Rename(P)+"_mag" |
| FluxKeys.PassThrough | python/lsst/meas/mosaic/updateExposure.py:218-222 | every field that is not a flux key is mapped under its own name and unit, and nothing else is |
| FluxKeys.MagFields | python/lsst/meas/mosaic/updateExposure.py:227-243 | every flux key, and its error key when present, gets a "mag" field named by the renaming, and only those: the source of each is a flux key or the selected error name of one |
| SchemaMapper.AddMapping | python/lsst/meas/mosaic/updateExposure.py:222 | a mapping is refused exactly when another input's field holds its name; otherwise it becomes its input's field, replacing an earlier one, and names stay unique |
| SchemaMapper.MapAll | python/lsst/meas/mosaic/updateExposure.py:218-243 | successive mappings leave each input with the last field given for it, names unique; a refusal names a name asked for two different inputs |
| SchemaMapper.MapAllSucceeds | python/lsst/meas/mosaic/updateExposure.py:218-243 | when no name is asked for two different inputs, no mapping is refused |
| SchemaMapper.LastForAppend | python/lsst/meas/mosaic/updateExposure.py:218-243 | the last field for an input over two loops comes from the second loop when it maps that input at all |
| FluxKeys.CalibSchemaOf | python/lsst/meas/mosaic/updateExposure.py:216-245 | on success names are unique and the inputs with a field are the non-flux fields and the flux fields with their selected error fields; flux and selected error fields are magnitudes named by the renaming, the second mapping of an error field replacing its pass-through, and every other field is kept as is; a failure names a name asked for two different inputs; every alias sends a flux or error name to its renaming |
| FluxKeys.CalibLast | python/lsst/meas/mosaic/updateExposure.py:216-243 | over the pass-through loop then the flux loop, the last mapping of each input is its magnitude field if it is a flux or selected error field, else its pass-through, else none |
| FluxKeys.CalibSchemaSucceeds | python/lsst/meas/mosaic/updateExposure.py:216-243 | when no two mappings share a name across inputs, the schema is built |
| FluxKeys.HscErrorFieldRemapped | python/lsst/meas/mosaic/updateExposure.py:216-243 | for the HSC fields "a" and "a_err", the error field passed through is replaced by its magnitude field: exactly two output fields, "a" and "a_err", both magnitudes |
| FluxKeys.RenamedNameClashes | python/lsst/meas/mosaic/updateExposure.py:216-232 | with fields "a_mag" and "a_instFlux", the renamed flux field clashes with the passed-through "a_mag" and the mapper refuses "a_mag" |
| FluxKeys.ApplyCalibSchema | python/lsst/meas/mosaic/updateExposure.py:210-245 | reports no flux keys exactly when getFluxKeys fails; a refusal names a name two different inputs ask for; on success names are unique, every flux key becomes its renamed magnitude field, and the schema is the one built with "Err" for LSST and "_err" for HSC error names |
| FluxKeys.AliasLookupAll | python/lsst/meas/mosaic/updateExposure.py:244-245 | after the alias loop every flux name and error name resolves to its renamed name |
| FluxKeys.AliasesRename | python/lsst/meas/mosaic/updateExposure.py:244-245 | each alias setting sends a name to its renaming |
| FluxKeys.AliasLookupRenames | python/lsst/meas/mosaic/updateExposure.py:223-245 | when every setting renames, a name that was set resolves to its renaming whatever the order of settings |
| ApplyResults.AddCorrection | python/lsst/meas/mosaic/updateExposure.py:179-188 | fails exactly when "mosaic_corr" already exists; otherwise every column is copied and the last column holds the correction |
| ApplyResults.ScaleByKeys | python/lsst/meas/mosaic/updateExposure.py:191-195 | each column without subfields is multiplied by the correction once per occurrence of its name among the keys; nothing else changes |
| ApplyResults.ApplyMosaicResultsCatalog | python/lsst/meas/mosaic/updateExposure.py:176-195 | fails exactly on a duplicate "mosaic_corr" or no flux keys, with the error naming which; rows and fields are kept; input columns are scaled by their key count; the added column holds the correction unscaled |
| ApplyResults.FluxKeysIgnoreCorrection | python/lsst/meas/mosaic/updateExposure.py:179-190 | adding "mosaic_corr" does not change the flux and error keys |
| ApplyResults.CorrNotAKey | python/lsst/meas/mosaic/updateExposure.py:183-190 | "mosaic_corr" is never a flux or error key, so it is not scaled |
| ApplyResults.LsstCatalogScaledOnce | python/lsst/meas/mosaic/updateExposure.py:190-195 | in the LSST convention every flux and error column without subfields is multiplied exactly once, and every other column is unchanged |
| ApplyResults.KeyCount | python/lsst/meas/mosaic/updateExposure.py:191 | with keys free of repeats, a name occurs once among flux and error keys if it is one of them, and not at all otherwise |
| ApplyResults.OverlapKeys | python/lsst/meas/mosaic/updateExposure.py:280-285 | for the HSC fields "flux_a", "flux_a_err", "flux_a_err_err" the flux keys are "flux_a" and "flux_a_err" and the error keys "flux_a_err" and "flux_a_err_err" |
| ApplyResults.HscOverlapScaledTwice | python/lsst/meas/mosaic/updateExposure.py:190-195 | on that catalog a correction of 2 leaves "flux_a" and "flux_a_err_err" doubled and "flux_a_err", which is both a flux and an error key, multiplied by 4 |
| QuarterTurns.FramesAgree | python/lsst/meas/mosaic/updateExposure.py:63-76 | the swapped dimensions match the frame the fit WCS was turned into, and the turn back restores the calexp's dimensions |
| QuarterTurns.ApplyResultsExposure | python/lsst/meas/mosaic/updateExposure.py:47-88 | each turn gets its frame's dimensions; the correction image is computed in the fit frame; the WCS ends in whole turns with the calexp's dimensions; the correction image matches the exposure |
| QuarterTurns.CatalogFrames | python/lsst/meas/mosaic/updateExposure.py:166-201 | catalog positions are in the frame of the turned fit WCS, with its dimensions, while corrected, and back in the camera frame afterwards |
| QuarterTurns.TurnBack | python/lsst/meas/mosaic/updateExposure.py:166-201 | turning dimensions by q and then by -q restores them |
| CameraGeom.CRem | src/shimCameraGeom.cc:15 | the C++ remainder differs from a by a multiple of b, lies strictly between -b and b and has the sign of a (which determines it); it is zero exactly when the Euclidean one is and equals it for a >= 0 |
| CameraGeom.CRemOdd | src/shimCameraGeom.cc:15 | negating the dividend negates the C++ remainder, unlike the Euclidean one |
| CameraGeom.SameResidue | src/shimCameraGeom.cc:15 | two values with the sign of a, strictly between -b and b and congruent to a modulo b are equal, so the remainder is determined by its contract |
| CameraGeom.GetYaw | src/shimCameraGeom.cc:12-28 | on success the yaw lies in (-90, 90) and differs from the orientation yaw by nQuarter right angles (none for whole turns); fails exactly when that residual is at least 90 degrees |
| CameraGeom.GetYawOfQuarterTurns | src/shimCameraGeom.cc:13-17 | a yaw of nQuarter right angles plus a small residual gives back the residual |
| CameraGeom.GetYawRejectsUnaccountedTurn | src/shimCameraGeom.cc:18-26 | an unturned detector with a yaw of a right angle or more is refused |
| CameraGeom.ScalingMmToPx | src/shimCameraGeom.cc:30-32 | the scaling divides by the pixel size: scaled back up it gives the millimetres |
| CameraGeom.CenterInFpPixels | src/shimCameraGeom.cc:34-37 | the focal-plane centre in pixels times the pixel size is the centre in millimetres |
| CameraGeom.CenterInDetectorPixels | src/shimCameraGeom.cc:39-46 | x and y are swapped exactly for an odd number of quarter turns |
| CameraGeom.DetPxToFpPxRot | src/shimCameraGeom.cc:61-72 | fails as getYaw does; otherwise the result minus the centre offset is the detector point rotated by the yaw |
| CameraGeom.DetPxToFpPxRotZeroYaw | src/shimCameraGeom.cc:61-72 | with zero yaw the map is translation by the centre offset |
| CameraGeom.DetPxToFpPxRotIsRigid | src/shimCameraGeom.cc:68-71 | the map keeps distances between detector points |
| CameraGeom.DetPxToFpPxRotInverse | src/shimCameraGeom.cc:68-71 | rotating back the result minus the offset recovers the detector point |
| CameraGeom.ComputeX0Y0 | src/shimCameraGeom.cc:74-87 | fails as getYaw does; otherwise rotating the result by the yaw gives the centre offset plus (x0, y0) |
| CameraGeom.ComputeX0Y0Length | src/shimCameraGeom.cc:83-84 | the result has the length of the centre offset plus (x0, y0) |
| CameraGeom.ComputeX0Y0ZeroYaw | src/shimCameraGeom.cc:83-84 | with zero yaw the result is the centre offset plus (x0, y0) |

## Left out

- Butler I/O. Dataset existence, reads and `butler.put` outcomes are
  functions supplied to the model. Logging and `print` are dropped.
- The solver and the C++ it calls: `kdtreeMat`, `kdtreeSource`,
  `mergeMat`/`mergeSource`, `solveMosaic_CCD*`, `convertCoeff`,
  `wcsFromCoeff`, `convertFluxFitParams`, `FluxFitParams.eval`,
  `getFCorImg`, `getJImg` and `calculateJacobian`. They are outside this
  model; their results (the fitted factors, the per-row correction `corr`)
  are inputs.
- Plotting, diagnostics output and `clippedStd`: they do not affect the
  solution.
- The colour-term arithmetic after the two log10 calls (`transformMags` and
  `pow`) is an oracle that gives the corrected flux, or nothing when it
  raises. The log10 calls are modelled: a zero, negative or -inf band flux
  raises, the exception is caught, and the CCD gives nothing.
- `rotateWcsPixelsBy90`, `rotateImageBy90`, `rotatePixelCoords` and
  `rotatePixelCoordsBack`: only the number of quarter turns and the
  dimensions each receives are modelled.
- Numeric trigonometry: cos and sin are an oracle.
- `detPxToFpPx`, `getWidth`, `getHeight` and `getNQuarter` of the shim are
  direct calls into cameraGeom and are not modelled separately.
- `instFluxToMagnitude`, the `strip('_mag')` lookup, `updateCoord` and the
  `getWcs` fall-back chain are outside this model. They turn values, not
  names or shapes.
- The shim's header file is not part of this model.
- The `fields` list of `run` is built but never used.
- `\w` in the HSC patterns is taken as ASCII word characters.
- Ingest.ReadCcd: requires positive pixel sizes, because the source divides
  by them without a check. It does not model that `setCenter` changes the
  camera's own CCD objects, so a second `readCcd` on the same camera would
  start from already shifted centres. The model always starts from the
  camera's original centres.
- Ingest.ReadWcs: does not model that an unreadable WCS is first printed by
  `getWcsForCcd` and then fails on `None`. It reports the failure directly.
- CameraGeom.DetPxToFpPxRot: the rotation and length results assume
  cos² + sin² = 1 of the oracle; a non-zero pixel size is required.
- CameraGeom.ScalingMmToPx: requires a non-zero pixel size. The C++
  (shimCameraGeom.cc:31) divides by it without a check, so a zero size
  would give an infinite scaling; the model does not say what follows.
- CameraGeom.CenterInFpPixels: requires a non-zero pixel size, for the same
  reason as ScalingMmToPx.
- CameraGeom.ComputeX0Y0: the inverse property holds only under the same
  unit-circle assumption. It requires a non-zero pixel size, for the same
  reason as ScalingMmToPx.
- StarSelection.ApplyColorTerm: a reference schema lacking the colour-term
  filter columns (a failing `find`) is not modelled; only the missing
  reference side of the first two matches is.
- StarSelection.GetAllForCcd: the colour term is chosen from the filter
  through the mapper outside the model.
- RunSetup.Run: the colour term itself comes from the mapper's filter table
  outside the model; only the device choice is modelled.
- ApplyResults.ApplyMosaicResultsCatalog: positions, the coordinate update
  and the returned WCS and fit parameters are not modelled. Only the
  columns and the correction are.
- FluxKeys.GetFluxKeys: the LSST branch collects names with
  `schema.extract("*_instFlux")` and `schema.extract("*_instFluxErr")`
  (updateExposure.py:269, 276), which also return alias names that match
  the pattern. The model matches field names only and does not model
  aliases. A non-slot alias of a flux field gives that column a second
  key, so the scaling loop (updateExposure.py:190-195) multiplies it twice;
  the model does not show this.
- FluxKeys.CalibSchemaOf: the order of the output fields is not modelled,
  only which field each input ends with. On a refusal, the alias settings
  made before it are not modelled. The alias map is taken from the input
  catalog's own schema (updateExposure.py:223), so the settings at
  updateExposure.py:244-245 also change the caller's catalog in place: its
  aliases then point at "…_mag" names that exist only in the output schema.
  The model puts the aliases on the output only.
- QuarterTurns.ApplyResultsExposure: `applyMosaicResultsExposure` reads
  three values itself and `getFluxFitParams` reads them again from other
  datasets. nQuarter comes from the calexp's detector (updateExposure.py:59)
  and again from the camera (updateExposure.py:109-110). hscRun comes from
  the calexp's metadata (updateExposure.py:61) and again from `calexp_md`
  (updateExposure.py:98). The dimensions come from the calexp
  (updateExposure.py:60) and again from `calexp_bbox`
  (updateExposure.py:114). The model takes one value for each pair,
  assuming both reads agree.
- QuarterTurns.CatalogFrames: assumes the detector's nQuarter read from
  the camera equals that of the calexp.
- FitProducts.WriteProducts: the product itself (WCS or flux-fit header)
  is not modelled, only its zero point and whether the put succeeded.
