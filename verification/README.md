# DroneDB core, verified in Dafny

This project models the self-contained algorithms and protocols of DroneDB and proves what
they promise. It stands alone: `dafny verify dfyconfig.toml` checks everything.

| files | what they model |
|---|---|
| ComplexNumbers, FourierTransform, FourierInversion, RadixTwoFft, TwoDimensionalFft, TwoDimensionalLaws | the in-place radix-2 transform, one- and two-dimensional, against the defining sums |
| ShiftLaws, PhaseCorrelation, ShiftDetection, PhaseAlignment, ContrastLaws | phase correlation: padding, cross-power spectrum, peak, strength, wrapped displacement |
| Rasters, Statistics, SummedAreaTables, PatchMatching, TemplateMatching | summed-area tables, texture ranking, normalised cross-correlation and the sub-pixel correction |
| SimilarityFit | least-squares similarity, RANSAC with refit, geotransform composition |
| LockProtocol, BuildLocks | the build lock as a machine of many processes over directory, inodes and kernel locks, and the lock object |
| Publication, BuildLifecycle, BuildCleanup | building into a scratch folder and publishing it, pending markers, cleanup |
| AddIndex | the plan, compute and commit passes that add files to the index |
| Text, GlobQuery, IndexRemoval, EntryMove | glob queries as LIKE patterns, removal from the index, moving files and folders |
| IndexDelta | the delta between two indexes and what applying it does |
| Crc64Table, Crc64 | the table-driven checksum against polynomial division |
| CommandLine | Windows argument quoting against the Microsoft C runtime's parser |
| Geo | IEEE remainder, angle normalisation, UTM zones |
| ExportTiles | the windowed formula export against the whole image |
| Arithmetic, Options | shared arithmetic facts and the Option datatype |

Values that the code computes in floating point are exact reals here. Roots of unity, square
roots and polar angles are parameters that obey their defining laws (`RootTable`, `IsSqrt`,
`IsPolar`, and a modulus function), random draws are arbitrary choices, a transaction is one
atomic step, and other processes, file edits, callbacks and removals that the file system
refuses are inputs that range over every behaviour.

## What the proofs found

Each of these is the code as written; a lemma shows it and, where one exists, the exact
condition under which the intended behaviour holds.

- Updating a modified file through the add pipeline cannot succeed while its row stays in place:
  the planned update keeps the insert flag and the insert meets the primary key
  (`AddIndex.ModifiedFileRaises`; exact condition in `AddIndex.AbortsExactly`). The flag stored
  with an accepted entry says that its path had no row, where the header documents "is an
  update" (`AddIndex.FlagsMeanInserted`).
- checkUpdate runs outside the try block, so with errors to be isolated a listed file that cannot
  be probed still aborts the whole call (`AddIndex.UnreadableRaises`). Isolation holds exactly
  when no listed file is unreadable or a parse fails fatally anyway (`AddIndex.IsolatesExactly`).
- Two processes can hold one build lock, from any consistent state: by a lock taken late on the
  unlinked inode (`LockProtocol.LinkedLockNeeded`), or by a prober that removes a path another
  process holds (`LockProtocol.OwnerRemovalNeeded`). Runs that avoid those two steps are exactly
  those in which every holder stays on the linked inode (`LockProtocol.CarefulRunExactly`), they
  exclude, and any other holder always leads to a second one (`LockProtocol.UnlinkedHolderDoubles`).
- Published output is never partial even when the lock fails to exclude, because scratch names
  are distinct; what the lock adds is that an unforced build never removes a complete output.
- The scratch folder of the 3D Tiles that a Model build co-produces is not protected by that
  build's lock (`BuildCleanup.ModelTilesUnprotected`).
- An error in the middle of the scan for live locks does not spare the directory as intended,
  because an iterator that fails compares equal to the end iterator (section 30.10.13 of
  ISO/IEC 14882:2017): the directory of a running build can go (`BuildCleanup.BrokenScanTakesLive`).
  It is spared exactly when the scan fails at once or gets as far as a live lock
  (`BuildCleanup.LiveSparedExactly`).
- Mean removal makes the zero-frequency bin exactly zero, so it is always cut off: the
  correlation surface of a pure shift is an impulse lowered by 1/n² everywhere, not 1 and 0. The
  displacement is still exact; for a 1×1 transform it is reported as -1 (`ShiftDetection.WrapExact`).
  When the cut-off drops further frequencies, the reported displacement is the first one that no
  surviving frequency tells from the shift, and is the shift exactly when the shift is the first
  of these (`PhaseAlignment.CallReportsFirst`).
- The sub-pixel correction has the opposite sign of the fitted vertex
  (`TemplateMatching.SubPixelMirrorsVertex`).
- The least-squares fit is optimal exactly when the spread is above 1e-20 or the radius equals
  the spread (`SimilarityFit.FitOptimalExactly`); the refit after RANSAC raises no candidate's
  error under exactly that condition (`SimilarityFit.RefitNeverWorseExactly`).
- Underscores are not escaped in glob queries, so removing one path can take its neighbours and
  whole folders with it (`IndexRemoval.UnderscoreTakesNeighbour`), also in phase one of cleanup.
  Removal takes only its own subtree exactly for paths without '*' and '_'
  (`IndexRemoval.RemovalExactly`).
- The unescaped LIKE of the folder listing takes in case variants and wildcard matches; moving a
  folder can then lose rows (`EntryMove.CaseVariantLoses`). A move re-roots the folder exactly
  when no such stray row is listed; otherwise it fails or some stray row is lost
  (`EntryMove.FolderMoveExactly`, `EntryMove.StraySpoils`).
- Rounding the automatic tile size up to 16 can exceed the memory budget it was fitted to
  (`ExportTiles.RoundingBreaksBudget`). The budget is kept for every number of bands up to 126
  exactly when rounding the sizes the halving may stop at costs no band
  (`ExportTiles.BudgetKeptExactly`); above 126 it never is (`ExportTiles.TooManyBands`).
- The command line reads back exactly when the program name has no quote and, if it had to be
  quoted, no trailing backslash; the other arguments always do.

## Model

| member | source | states |
|---|---|---|
| FourierTransform.DftIsSum | src/library/align.cpp:204-229 | the reference transform (polynomial evaluation at a power of the root) is the textbook sum over the inputs |
| FourierTransform.DftSplit | src/library/align.cpp:213-226 | Cooley-Tukey: a transform of even length is one butterfly pass over the transforms of the even- and odd-indexed halves |
| FourierInversion.InverseRestores | src/library/align.cpp:213-228 | transforming with a primitive root and then with its inverse multiplies the input by its length |
| RadixTwoFft.RevInvolution | src/library/align.cpp:207-212 | reversing the k index bits twice is the identity |
| RadixTwoFft.NextReversed | src/library/align.cpp:208-210 | the carry loop advances the reversed counter: from the reversal of i to the reversal of i+1 |
| RadixTwoFft.BitReversePermute | src/library/align.cpp:207-212 | the swap loop puts the array into bit-reversed order in place |
| RadixTwoFft.BitReversedAt | src/library/align.cpp:207-212 | bit-reversed order by halves is indexing by the reversed index |
| RadixTwoFft.ButterflyPass | src/library/align.cpp:216-225 | the middle loop does one butterfly pass over all blocks |
| RadixTwoFft.RunPasses | src/library/align.cpp:213-226 | the doubling loop runs all passes with the roots of its direction |
| RadixTwoFft.PassesTransform | src/library/align.cpp:207-226 | all passes over the bit-reversed input give the discrete Fourier transform, for every power-of-two length |
| RadixTwoFft.Fft1d | src/library/align.cpp:205-229 | the in-place method computes the transform of the given direction, divided by the length for the inverse |
| RadixTwoFft.TransformIsSum | src/library/align.cpp:204-229 | each output of a forward call is exactly the defining sum |
| RadixTwoFft.RoundTrip | src/library/align.cpp:205-229 | a call in one direction after a call in the other restores every input |
| TwoDimensionalFft.Fft2d | src/library/align.cpp:232-244 | rows then columns, in place, give the two-dimensional transform of the matrix |
| TwoDimensionalLaws.Transform2IsDoubleSum | src/library/align.cpp:231-244 | each entry of the forward transform is the defining double sum |
| TwoDimensionalLaws.PassesCommute | src/library/align.cpp:234-243 | a row pass and a column pass can be exchanged, whatever their directions |
| TwoDimensionalLaws.RoundTrip2 | src/library/align.cpp:231-244 | an inverse call after a forward call, or the reverse, restores every n×n matrix |
| ShiftLaws.ShiftTheorem2 | src/library/align.cpp:246-251 | a cyclic shift multiplies each frequency by its phase factor |
| ShiftLaws.ImpulseSpectrum | src/library/align.cpp:282-290 | the spectrum of a shifted impulse is exactly those phase factors |
| PhaseCorrelation.FftSize | src/library/align.cpp:256-258 | the transform side is the least power of two that covers both rasters |
| PhaseCorrelation.Pad | src/library/align.cpp:270-277 | zero-padded, mean-subtracted placement of a raster in the top-left corner |
| PhaseCorrelation.NormalizedCrossPower | src/library/align.cpp:282-288 | for any two spectra a bin is zero when the modulus of conj(FS)·FR is below 1e-12, and otherwise the number of length one in the direction of conj(FS)·FR |
| PhaseCorrelation.CorrelationSurface | src/library/align.cpp:270-290 | the surface is the inverse transform of the whitened cross spectrum of the two padded rasters |
| PhaseCorrelation.PeakStrength | src/library/align.cpp:305-319 | peak value over the mean sidelobe outside the cyclic 5×5 neighbourhood, 0 below the cut-off |
| PhaseCorrelation.StrengthExactly | src/library/align.cpp:299-319 | for any surface and any cell the strength is its height over the mean height of the cells more than two cyclic steps away in some direction, 0 without such cells or when their mean is at most 1e-12 |
| PhaseCorrelation.PhaseCorrelate | src/library/align.cpp:252-325 | reports displacement and strength of a peak of the correlation surface of any two rasters |
| ShiftDetection.PaddedExactly | src/library/align.cpp:270-277 | zero outside the raster, and inside real entries that differ from one another as the pixels do; with the vanishing zero-frequency bin this determines the padded matrix |
| ShiftDetection.DcBinVanishes | src/library/align.cpp:267-280 | the zero-frequency bin of a padded mean-subtracted raster is zero, for every raster |
| PhaseAlignment.SurfaceBins | src/library/align.cpp:270-290 | for any two rasters the surface is the inverse transform of bins that are zero below the cut-off and otherwise of length one and directed like conj(FS)·FR |
| ContrastLaws.SurfaceUnmoved | src/library/align.cpp:267-290 | changing brightness and contrast of either raster leaves the surface as it is, as long as the same frequencies survive the cut-off |
| ContrastLaws.CallUnmoved | src/library/align.cpp:246-325 | and then a call reports the same displacement and strength |
| ShiftDetection.SurfaceOfShift | src/library/align.cpp:270-290 | for a circular shift with no other bin cut off, the surface is 1 − 1/n² at the shift and −1/n² elsewhere |
| ShiftDetection.ShiftRecovered | src/library/align.cpp:252-325 | whatever is reported for such a shift is that shift, wrapped, with strength n² − 1 (0 for n ≤ 4 or 1/n² under the cut-off) |
| ShiftDetection.CallRecoversShift | src/library/align.cpp:246-325 | hence any two rasters whose padded forms are such a shift get that displacement from a call, whatever transform size it picks |
| PhaseAlignment.SurfaceBounded | src/library/align.cpp:270-290 | for any circular shift with K frequencies above the cut-off the surface is nowhere above K/n², and K/n² exactly at the displacements no kept frequency tells from the shift, so always at the shift |
| PhaseAlignment.CallReportsFirst | src/library/align.cpp:246-325 | whatever a call reports for a circular shift is the first such displacement in row-major order, wrapped; it is the shift exactly when the shift is the first |
| ShiftDetection.WrapExact | src/library/align.cpp:321-324 | the wrapped displacement is congruent to the peak, and within [−n/2, n/2) for all peaks exactly when n ≥ 2 |
| SummedAreaTables.FourCorners | src/library/align.cpp:158-165 | four prefix sums give the sum over any rectangle |
| SummedAreaTables.Recurrence | src/library/align.cpp:147-154 | the sweep's recurrence is true of the prefix sums |
| SummedAreaTables.FillTables | src/library/align.cpp:147-154 | the sweep fills both tables with the prefix sums of the samples and of their squares |
| SummedAreaTables.IntegralImages.BoxSum | src/library/align.cpp:158-161 | the table lookup equals the direct sum over the rectangle, for every rectangle |
| SummedAreaTables.IntegralImages.BoxSum2 | src/library/align.cpp:162-165 | likewise for the sum of squares |
| Statistics.VarianceIsSpread | src/library/align.cpp:188-188 | n times the variance formula is the sum of squared deviations, so it is never negative |
| Statistics.CauchySchwarz | src/library/align.cpp:384-391 | the squared cross sum is at most the product of the two spreads |
| Statistics.CorrelationBounded | src/library/align.cpp:391-391 | the correlation coefficient lies in [−1, 1] |
| Statistics.CorrelationExplains | src/library/align.cpp:374-391 | for any line through one sample, the squared error in predicting the other is n·t²·(1 − r²) plus the squares of its distances from the slope r·t/s and from the means, which determines the coefficient r with its sign |
| Statistics.ExtremesExactly | src/library/align.cpp:374-391 | the coefficient is 1 exactly for a rescaled copy with positive gain and −1 exactly for one with negative gain |
| PatchMatching.WindowMoments | src/library/align.cpp:185-188 | the mean and variance of a window read from the tables are the direct ones |
| PatchMatching.CollectPatches | src/library/align.cpp:184-192 | the candidates are exactly the sites of the sampling grid inside the margin, one each in row-major order, scored with the true variance |
| PatchMatching.SelectPatches | src/library/align.cpp:174-200 | keeps at most maxPatches of them in falling order of texture, none better left out |
| TemplateMatching.AreaInside | src/library/align.cpp:360-371 | every window of the clamped search area fits in the reference |
| TemplateMatching.AreaExactly | src/library/align.cpp:359-368 | a position is searched exactly when it fits and lies within the radius of the rounded seeded position, or is the border nearest to one beyond it |
| TemplateMatching.ScoreBounded | src/library/align.cpp:374-392 | every map value is the skip value or lies in [−1, 1] |
| TemplateMatching.MapExactly | src/library/align.cpp:384-396 | each map value is -2 for a window of deviation below 1e-6, and otherwise the coefficient by which lines through the patch explain that window |
| TemplateMatching.Search | src/library/align.cpp:373-399 | the loops fill the score map and keep its first maximum above −1 |
| TemplateMatching.MatchFound | src/library/align.cpp:373-399 | the score is 1 exactly when some searched window that is not flat is the patch up to brightness and contrast, and then the integer match is the first such window |
| TemplateMatching.MatchPatch | src/library/align.cpp:338-413 | no match for a flat patch or an empty area; otherwise the first maximum of the map over the clamped area, refined |
| TemplateMatching.CallFindsMatch | src/library/align.cpp:338-413 | so a call with such a window within reach reports score 1 and a displacement within half a pixel of the first one |
| TemplateMatching.RefinedExactly | src/library/align.cpp:401-411 | inside the map the integer match is corrected along each axis from its own two neighbours, by half their difference over the curvature when that exceeds 1e-9; on the border it is reported as it is |
| TemplateMatching.NoMatchReported | src/library/align.cpp:356-370 | no displacement and score −1 for a patch of deviation below 1e-6 or without a position in reach |
| TemplateMatching.SubPixelBounded | src/library/align.cpp:401-411 | around a maximum the correction is at most half a pixel |
| TemplateMatching.MatchWithinHalfPixel | src/library/align.cpp:338-413 | the reported displacement is within half a pixel per axis of the first maximum and its score lies in (−1, 1] |
| TemplateMatching.SubPixelMirrorsVertex | src/library/align.cpp:408-410 | the fitted parabola is highest at the mirror image of the correction; they agree exactly when both neighbours are equal |
| SimilarityFit.ComputeUmeyama | src/library/align.cpp:425-460 | fewer than two points are refused; otherwise the two sweeps compute the closed form |
| SimilarityFit.ExcessCost | src/library/align.cpp:417-424 | at a solution of the normal equations every other similarity costs more by its weighted parameter distance plus its offset |
| SimilarityFit.FitIsOptimal | src/library/align.cpp:417-460 | above the spread threshold the fit is the global minimiser of the summed squared residual |
| SimilarityFit.FitOptimalExactly | src/library/align.cpp:446-459 | it is the minimiser exactly when the spread is above 1e-20 or the radius equals the spread |
| SimilarityFit.FitRecovers | src/library/align.cpp:425-460 | points related by a similarity give that similarity back |
| SimilarityFit.Ransac | src/library/align.cpp:464-499 | the model kept is the first sampled one that maps most pairs to within the threshold (the identity when none maps any), the mask marks exactly the pairs whose squared distance after it is below the squared threshold, and the result is the refit on the marked pairs |
| SimilarityFit.RefitNeverWorseExactly | src/library/align.cpp:489-498 | the refit raises no candidate's squared error on the inliers exactly when there are fewer than two, or their spread is above 1e-20, or the radius equals the spread |
| SimilarityFit.PairFitExact | src/library/align.cpp:425-460 | two pairs spread above the threshold are fitted with zero residual |
| SimilarityFit.RunRefitNeverWorse | src/library/align.cpp:473-498 | when the winning pair is spread above the threshold, both its pairs are inliers, the inliers are spread at least as much, and the refit is optimal on them |
| SimilarityFit.ComposeAt | src/library/align.cpp:517-524 | the composed geotransform sends each pixel where the similarity sends its old map position |
| LockProtocol.NextConsistent | src/library/buildlock.cpp:156-200 | every step of every process, crashes included, keeps the ownership invariant of descriptors and locks |
| LockProtocol.RunConsistent | src/library/buildlock.cpp:156-200 | hence every run does |
| LockProtocol.LinkedHolderUnique | src/library/buildlock.cpp:321-371 | in every reachable state at most one holder of a path holds the inode linked there |
| LockProtocol.MutualExclusion | src/library/buildlock.cpp:156-200 | in every interleaving where locks land on the linked inode and no path is removed while held, no two processes hold one path |
| LockProtocol.TwoHoldersNeedCarelessStep | src/library/buildlock.cpp:172-180 | two holders can only arise from a step that breaks one of those two conditions |
| LockProtocol.CarefulExactly | src/library/buildlock.cpp:172-180 | a step leaves every holder on the linked inode exactly when it keeps both conditions |
| LockProtocol.CarefulRunExactly | src/library/buildlock.cpp:172-180 | a run keeps every holder on the linked inode throughout exactly when each of its steps keeps both conditions |
| LockProtocol.UnlinkedHolderDoubles | src/library/buildlock.cpp:172-187 | a holder that is off the linked inode can always be joined by a second holder, by two plain steps of any idle process when the path is free |
| LockProtocol.LinkedLockNeeded | src/library/buildlock.cpp:172-187 | from every consistent state with the path free a late lock on the unlinked inode, without any foreign removal, reaches two holders |
| LockProtocol.OwnerRemovalNeeded | src/library/build.cpp:1007-1016 | from every such state a removal after the probe, without any late lock, reaches two holders |
| LockProtocol.AcquireRuns | src/library/buildlock.cpp:321-367 | on a free path any idle process acquires the lock on the linked inode |
| LockProtocol.CycleRuns | src/library/build.cpp:954-964 | a whole acquire-and-release cycle, such as a probe, runs on a free path and unlinks it |
| LockProtocol.CrashNeverBlocks | src/library/buildlock.cpp:312-316 | wherever a process dies, the path it blocked is free at once for any other process |
| LockProtocol.LocksAreOwned | src/library/buildlock.cpp:312-316 | in every reachable state each kernel lock belongs to a live process past the lock step |
| BuildLocks.BuildLock.AcquireLock | src/library/buildlock.cpp:253-371 | outcome by directory, open and lock result, with the whole kernel state after each; success holds a lock on the linked inode |
| BuildLocks.BuildLock.Cleanup | src/library/buildlock.cpp:156-200 | unlink, unlock, close; nothing on an unlocked object |
| BuildLocks.BuildLock.Release | src/library/buildlock.cpp:202-207 | may be called any number of times; afterwards the path is unlinked, the lock gone and the descriptor closed, and nothing else differs |
| BuildLocks.BuildLock.Moved | src/library/buildlock.cpp:209-226 | the new object owns what the old one owned, the old one nothing |
| BuildLocks.BuildLock.MoveAssign | src/library/buildlock.cpp:228-251 | a lock held here is released first, ownership moves, self-assignment changes nothing |
| BuildLocks.AcquireRelease | src/library/buildlock.cpp:156-200 | acquiring and releasing restores descriptors and locks and unlinks the path |
| BuildLocks.AttemptIsSteps | src/library/buildlock.cpp:253-371 | every acquisition, refused or failed ones included, is a run of the lock machine with that kernel state and no other process moved |
| BuildLocks.AcquireBySteps | src/library/buildlock.cpp:253-371 | the object's acquisition takes the machine along exactly those steps |
| BuildLocks.ReleaseBySteps | src/library/buildlock.cpp:202-207 | releasing a held lock is unlink, unlock and close of the machine, and no step otherwise |
| BuildLocks.MoveBySteps | src/library/buildlock.cpp:209-226 | a move takes no step: the new object stands for the process of the old one |
| BuildLocks.AssignBySteps | src/library/buildlock.cpp:228-251 | move assignment takes the steps that release what was held, then stands for the other's process |
| Publication.NextSound | src/library/build.cpp:252-378 | every step of every builder keeps: the output, if any, is a finished folder and scratch folders belong to their makers |
| Publication.OutputNeverPartial | src/library/build.cpp:252-378 | over every interleaving with successes, failures, crashes and deletions the output is absent or whole, from one finished run |
| Publication.PublishedTilesComplete | src/library/build.cpp:324-342 | a published 3D Tiles archive counts as complete |
| Publication.CompleteExactly | src/library/build.cpp:161-175 | an output is complete exactly when some file that matters to its kind is not empty: model.rad, tileset.json, or any |
| Publication.BuildRuns | src/library/build.cpp:252-378 | an undisturbed build that is forced or finds an incomplete output runs and leaves its files published and no scratch folder |
| Publication.FailingBuildRuns | src/library/build.cpp:343-378 | a builder that throws leaves the output as it was, no scratch folder, and a pending marker exactly for missing dependencies |
| Publication.LateRenameFails | src/library/build.cpp:339-378 | a rename that meets an output, or finds its scratch folder gone, leaves output and pending marker as they were and no scratch folder |
| Publication.RecoveryRuns | src/library/build.cpp:252-378 | after a crash, a deletion or a reclaimed scratch folder at any point of any run a forced build publishes its files |
| Publication.LockProtectsRun | src/library/build.cpp:252-342 | with an exclusive lock an unforced build never removes a complete output and a rename never meets an existing one |
| Publication.ExclusionNeeded | src/library/build.cpp:257-342 | without exclusion two unforced builders reach a removal of a complete output |
| BuildLifecycle.HashFolder.BuildInternal | src/library/build.cpp:252-378 | result, folders and pending marker for every builder outcome: published whole, or everything but the marker as before |
| BuildLifecycle.HashFolder.BuildAndPublish | src/library/build.cpp:272-378 | scratch folder, builder, swap and the three exception paths |
| BuildCleanup.RemoveOrphanTempFolders | src/library/build.cpp:664-703 | removes exactly the scratch folders whose lock is not live and whose removal is not refused |
| BuildCleanup.ScratchExactly | src/library/build.cpp:679-688 | a scratch name is a non-empty prefix, the first "-temp-" of the name and a non-empty rest, and its lock is the prefix with ".building" |
| BuildCleanup.OutputKept | src/library/build.cpp:679-684 | a published output is never taken for scratch |
| BuildCleanup.ScratchTakenExactly | src/library/build.cpp:686-701 | the scratch folder of a build is taken exactly when the lock of its subfolder is not live |
| BuildCleanup.ModelTilesUnprotected | src/library/build.cpp:686-688 | under a live nxs lock the co-produced tiles' scratch folder is still taken |
| BuildCleanup.ProbeLocks | src/library/build.cpp:824-852 | the scan spares a directory when it cannot start or meets a live lock before it ends or breaks off; a complete scan exactly when some lock is live |
| BuildCleanup.BuildDirectory.RemoveOrphans | src/library/build.cpp:749-890 | exactly the entries that are due and not refused are removed and reported: unreferenced directories named by 64 hexadecimal digits whose scan started and met no live lock, and unreferenced pending files; every other one is left as described |
| BuildCleanup.BrokenScanTakesLive | src/library/build.cpp:836-852 | a scan that breaks off before the live lock lets the directory of a running build go |
| BuildCleanup.LiveSparedExactly | src/library/build.cpp:824-852 | an unreferenced directory with a live lock is spared exactly when the scan fails at once or gets as far as a live lock |
| BuildCleanup.ReferencedKeeps | src/library/build.cpp:814-822 | a referenced directory keeps its outputs and the scratch of running builds |
| BuildCleanup.OrphansReclaimed | src/library/build.cpp:807-865 | with no refused removal and scans that start, every orphan is gone |
| AddIndex.PlanAddCandidates | src/library/dbops.cpp:654-686 | the plan lists every path not skipped for a backslash, in order, with its row if any |
| AddIndex.SkippedExactly | src/library/dbops.cpp:662-668 | a path is skipped exactly when a backslash comes after its last slash |
| AddIndex.ComputeAddEntries | src/library/dbops.cpp:699-756 | when it returns, the unchanged paths are, in order, those with a row that are a directory or a file with the mtime or the hash of the row; every other path is listed as its parse says |
| AddIndex.ComputeConserves | src/library/dbops.cpp:699-756 | a compute phase that returns puts each planned path in exactly one of computed, errors and unchanged |
| AddIndex.RaisesExactly | src/library/dbops.cpp:706-747 | the compute phase raises exactly when some item cannot be probed, fails fatally, or fails with errors to stop on |
| AddIndex.IsolatesExactly | src/include/dbops.h:74-78 | with errors isolated only fatal parses end the phase, exactly when no listed file is unreadable or some parse is fatal |
| AddIndex.UnreadableRaises | src/library/dbops.cpp:711-720 | one unreadable listed file ends a run of any number of retries although errors are to be isolated |
| AddIndex.Database.CommitAddEntries | src/library/dbops.cpp:764-870 | the transaction's table, accepted list, conflicts and unchanged list for every batch, file state and callback; a cancelled or aborted one leaves table and accepted list as they were; each new entry's flag says that its path had no row |
| AddIndex.CommitWrites | src/library/dbops.cpp:786-855 | the table is the old one overwritten by the accepted rows, each a planned insert whose mtime and size the file still had |
| AddIndex.CommitReasons | src/library/dbops.cpp:786-836 | every conflict met an altered file or the planned update of a row that is gone, and every path found unchanged met a row with its mtime and hash |
| AddIndex.FlagsMeanInserted | src/library/dbops.cpp:838-855 | throughout a transaction each accepted entry's flag is true exactly when neither the table nor an earlier entry had its path |
| AddIndex.CommitConserves | src/library/dbops.cpp:764-870 | a commit that goes through puts each computed path in exactly one of accepted, conflicts and unchanged |
| AddIndex.CancelledExactly | src/library/dbops.cpp:857-864 | a commit is cancelled exactly when the callback refuses to go on after an accepted entry |
| AddIndex.AbortsExactly | src/library/dbops.cpp:817-853 | a commit aborts exactly when some planned update finds its file still and its row in place |
| AddIndex.AddToIndexEx | src/library/dbops.cpp:889-917 | the re-plan loop computes the recursion over passes on table and result lists, with the default of two retries for a negative count |
| AddIndex.RunConserves | src/library/dbops.cpp:889-917 | at most retries + 1 passes, and a run that returns puts each visible path in exactly one of the three lists, whatever happens between phases |
| AddIndex.UnchangedTree | src/library/dbops.cpp:889-917 | adding a tree whose files all have the mtime or the hash of their rows returns with every path unchanged and leaves the table alone |
| AddIndex.NewTreeAdded | src/library/dbops.cpp:889-917 | adding new files that stay as they are returns with every one accepted in order and exactly their rows added |
| AddIndex.RefusedTreeUndone | src/library/dbops.cpp:857-864 | if the callback refuses to go on after any of them, the call returns with table and lists as they were |
| AddIndex.ChangingFileGivesUp | src/library/dbops.cpp:889-917 | a file that changes during every pass is planned exactly retries + 1 times and then reported once as a conflict |
| AddIndex.ModifiedFileRaises | src/library/dbops.cpp:817-853 | adding a modified file with nothing else going on never returns normally |
| AddIndex.RowProvenance | src/library/dbops.cpp:764-870 | in every interleaving of runs each row is untouched or was left by the last commit that accepted it, with the file's mtime and size then |
| GlobQuery.SanitizeQueryParam | src/library/dbops.cpp:962-973 | the three replacements in sequence |
| GlobQuery.SanitizedChar | src/library/dbops.cpp:966-970 | they act as one character-wise translation, without interfering |
| GlobQuery.TranslationExact | src/library/dbops.cpp:962-973 | the LIKE pattern matches exactly the strings the query means, for every query and string |
| GlobQuery.SameExactly | src/library/dbops.cpp:962-973 | two characters match up to case exactly when they are equal or the two forms of one ASCII letter |
| GlobQuery.FolderExact | src/library/dbops.cpp:1004-1012 | with the folder suffix it matches exactly what lies below a match |
| GlobQuery.MeansItselfExactly | src/library/dbops.cpp:962-973 | a path means itself, up to case, exactly when it has no '*' and no '_' |
| IndexRemoval.Index.GetMatchingEntries | src/library/dbops.cpp:1118-1186 | exactly the rows that match the query, all for an empty one, below a folder with the folder suffix, and down to the given depth; a negative depth throws |
| IndexRemoval.Index.DeleteFromIndex | src/library/dbops.cpp:999-1061 | removes exactly the hits and their metadata and counts them |
| IndexRemoval.Index.RemovePath | src/library/dbops.cpp:931-957 | removes what every match takes with it, and fails exactly when nothing matches |
| IndexRemoval.PlainRemoval | src/library/dbops.cpp:919-960 | a path without wildcards and case variants takes exactly its own subtree |
| IndexRemoval.RemovalExactly | src/library/dbops.cpp:919-960 | a path takes exactly its own subtree, in every index without case variants of it, exactly when it has no '*' and no '_' |
| IndexRemoval.UnderscoreTakesNeighbour | src/library/dbops.cpp:967-970 | an underscore takes a neighbouring folder with its contents along |
| IndexRemoval.RemoveMissing | src/library/build.cpp:708-747 | no row of a missing file survives; with plain names nothing else goes and each is reported |
| EntryMove.Index.Move | src/library/dbops.cpp:1579-1671 | refusals, the file branch and the folder branch, with the index unchanged on every exception |
| EntryMove.RefusedExactly | src/library/dbops.cpp:1581-1622 | refused are exactly a trailing separator or a dot component on either side, a source without a row, and an existing destination when it or the source is a directory |
| EntryMove.FileMoveReturns | src/library/dbops.cpp:1628-1652 | a file move returns unless the extension changes and the new kind cannot be detected |
| EntryMove.ExtensionExactly | src/library/dbops.cpp:1636-1640 | the extension is what follows from the last dot of the file name, unless that dot opens the name |
| EntryMove.DepthIsRight | src/library/mio.cpp:248-258 | the depth is one less than the number of components, which in a tidy path is the number of separators |
| EntryMove.FileMoved | src/library/dbops.cpp:1628-1652 | the file keeps its hash, gets as depth the number of separators of its new path, changes its kind exactly with its extension, replaces what was there and brings its metadata |
| EntryMove.ListingExactly | src/library/dbops.cpp:1538-1557 | the listing stays inside the folder and its case variants, in every index, exactly when the name has no wildcard |
| EntryMove.FolderMoveExactly | src/library/dbops.cpp:1654-1668 | a folder move returns and re-roots injectively (no row lost, contents and metadata kept, every depth the number of separators of the new path, everything outside unchanged) exactly when no stray row is listed |
| EntryMove.StraySpoils | src/library/dbops.cpp:1654-1668 | with a stray row listed a move that returns loses some row outside the folder |
| EntryMove.DepthShift | src/library/dbops.cpp:1559-1570 | all rows of a moved folder change their depth by the same amount |
| EntryMove.CaseVariantLoses | src/library/dbops.cpp:1543-1546 | a case variant listed with the folder loses a row |
| IndexDelta.GetDelta | src/library/delta.cpp:105-206 | fails exactly on a bad stamp; otherwise adds, removes and metadata ids with their multiplicities and order |
| IndexDelta.DeltaTransforms | src/library/delta.cpp:105-206 | removes then adds turn the destination into exactly the source |
| IndexDelta.RemovesKeepTree | src/library/delta.cpp:153-169 | after every single remove the index is still a well-formed tree |
| IndexDelta.AddsKeepTree | src/library/delta.cpp:117-151 | after every single add it is too, including file and directory swaps |
| IndexDelta.EmptyExactly | src/include/delta.h:80-84 | the delta is empty exactly when entries and metadata ids agree |
| IndexDelta.MetaTransforms | src/library/delta.cpp:171-196 | the metadata lists are the two set differences, each id once, and turn the destination's ids into the source's |
| IndexDelta.DeltaApplies | src/library/delta.cpp:105-206 | whatever getDelta returns for the stamps of two indexes turns the destination, through well-formed trees only, into exactly the source, ids included, and is empty exactly when they agree |
| Crc64.TableExact | src/include/hash.h:36-165 | each of the 256 constants is its index after eight bitwise division steps |
| Crc64.ByteStepExact | src/library/hash.cpp:83-86 | one table step is eight bitwise steps with the byte added in |
| Crc64.DivisionExact | src/library/hash.cpp:79-92 | the register is the remainder of the message times x^64 by the generator, by schoolbook long division, for every byte string |
| Crc64.DivisionIdentity | src/library/hash.cpp:79-92 | that long division is one: quotient times generator plus remainder is the dividend |
| Crc64.RunLinear | src/library/hash.cpp:79-92 | linear over exclusive or for strings of equal length |
| Crc64.BurstDetected | src/library/hash.cpp:79-92 | strings that differ only inside eight consecutive bytes have equal checksums exactly when they are equal |
| Crc64.HexBack | src/library/hash.cpp:88-91 | the hexadecimal text determines the number |
| Crc64.StrCrc64 | src/library/hash.cpp:79-92 | the loop prints exactly that remainder |
| Crc64.BurstChangesText | src/library/hash.cpp:79-92 | hence the printed checksums of such strings differ |
| CommandLine.QuoteArg | src/library/buildlod_runner.cpp:84-119 | the backslash-counting loop writes the quoted form |
| CommandLine.JoinArgs | src/library/buildlod_runner.cpp:261-266 | joins the quoted arguments with blanks |
| CommandLine.QuotedBack | src/library/buildlod_runner.cpp:84-119 | every argument reads back as itself, for all runs of backslashes, quotes, blanks and the empty argument |
| CommandLine.JoinedBack | src/library/buildlod_runner.cpp:261-266 | every list reads back under the argument rules |
| CommandLine.RoundTrip | src/library/buildlod_runner.cpp:261-266 | the whole command line reads back exactly when the program name is safe |
| Geo.RemainderX | src/library/geo.cpp:26-42 | the branches compute x less the nearest multiple of the divisor's size, ties to even |
| Geo.RemainderNearest | src/library/geo.cpp:26-42 | that remainder is at most half the divisor, with an even multiple when it is exactly half |
| Geo.AngNormalize | src/library/geo.cpp:44-48 | computes the normalised angle |
| Geo.NormalizedIsNormal | src/library/geo.cpp:44-48 | it lies in (−180, 180] and differs from the input by whole turns |
| Geo.NormalizedPeriodic | src/library/geo.cpp:44-48 | whole turns make no difference |
| Geo.LatitudeBand | src/library/geo.cpp:13-18 | the eight-degree band, clamped at the poles, in spite of truncating division |
| Geo.StandardUtmZone | src/library/geo.cpp:50-62 | computes the zone of the published map, stated in degrees |
| Geo.ZoneByMap | src/library/geo.cpp:50-62 | for a longitude in [−180, 180) and any whole turns: 32 over the south of Norway up to 12° east, 31, 33, 35 and 37 with their limits north of 72°, and the containing six-degree strip everywhere else |
| Geo.ZoneLaws | src/library/geo.cpp:50-62 | always in 1..60, periodic in longitude, the containing six-degree strip outside Norway and Svalbard and at most one off inside |
| ExportTiles.ComputeExportTileSize | src/library/ddb.cpp:2106-2131 | the halving loop computes the tile size |
| ExportTiles.TileSizeExactly | src/library/ddb.cpp:2106-2131 | always the next multiple of 16 in [64, 8192]: from an explicit request, or from the block width within [512, 1024], half of it or 256, whichever first keeps to 64 MiB |
| ExportTiles.BudgetKeptExactly | src/library/ddb.cpp:2106-2131 | the automatic tile of a block width keeps to the memory budget for all band counts up to 126 exactly when rounding the start size, and its half if that is above 256, costs no band |
| ExportTiles.TooManyBands | src/library/ddb.cpp:2117-2125 | with more bands the floor of 256 always exceeds the budget |
| ExportTiles.RoundingBreaksBudget | src/library/ddb.cpp:2117-2131 | a witness: 700 wide with 66 bands fits before rounding and not after |
| ExportTiles.ComputeWindow | src/library/ddb.cpp:2211-2227 | the result buffer holds, row by row, the formula of each pixel of the window |
| ExportTiles.RenderTile | src/library/ddb.cpp:2337-2356 | one tile adds exactly its own cells, each written once in each channel |
| ExportTiles.ExportFormula | src/library/ddb.cpp:2320-2368 | cancelled exactly when the callback says so before some tile; otherwise every cell is written exactly once with what the colormap makes of the formula at its own samples, for every size and tile size |
| ExportTiles.TileSizeIrrelevant | src/library/ddb.cpp:2320-2357 | two complete exports of one source agree everywhere |

## Left out

- Floating-point rounding, the sign of a zero remainder, `sqrt`, `atan2`, `cos` and `sin` as computed values.
- GDAL, PDAL, Exiv2, Assimp, OpenSSL, SQLite and SpatiaLite internals; query failures other than the primary key.
- The Windows branch of the build lock and the text written into the lock file.
- Vector outputs and the Model build's own 3D Tiles output in the publication property: other code writes them under their own scheme.
- `createMissingFolders`, and the deletion of build folders by hash after rows are removed.
- Reading rasters onto the common grid, warping, elevation offsets and the driver of the alignment.
- The percentile pass of the export when no range is given; a range is a parameter.
- SQLite's treatment of NUL and of non-ASCII case in LIKE; strings are sequences of characters.
- The Windows conversion of the command line to wide characters.
- TemplateMatching.MatchPatch: requires the patch to fit in the reference, because otherwise the bounds passed to `std::clamp` are reversed and its behaviour is undefined.
- BuildCleanup.BuildDirectory.RemoveOrphans: the listings of the build directory itself and of a referenced directory are complete; an error that ends one of them early only leaves more behind.
- PatchMatching.SelectPatches: the order of equally textured candidates is that of a stable insertion, where `std::sort` leaves it open.
- AddIndex.RunConserves: says nothing about runs that a callback cancels, where the items after the cancelling one are reported nowhere.
- BuildCleanup.BuildDirectory.RemoveOrphans: takes the state of the locks as fixed during the scan; a build that starts between the probe and the removal is covered only by the lock machine.
- Geo.StandardUtmZone: angles so large that their floor leaves the range of `int` are not distinguished.
