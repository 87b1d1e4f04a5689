# DICOM_Viewer volume engine in Dafny

A model of the volume-assembly and multi-planar-reconstruction engine inside
`MainFrame` of `DICOM_Viewer.cpp`, with proofs of what it guarantees. The
engine:

- groups the files of a folder by SeriesInstanceUID and picks the series
  with the most files;
- reads that series again, resetting the width and height to 0 and then
  taking the width, height and slice thickness from the first file that
  loads, together with its spacing and patient fields when present (a file
  whose Columns is 0 leaves the width at 0, so the next file that loads
  reads them again);
- keeps every slice whose decoded image has that size;
- sorts the kept slices by InstanceNumber and packs them into one buffer
  of W·H·D signed 16-bit samples;
- cuts axial, coronal and sagittal planes out of that buffer;
- maps each plane through a window (level, width) to grey bytes;
- drives all of this from the slice and window sliders, the mouse wheel
  and the reset button.

Files:

- `basics.dfy` (module `Basics`) holds the sample, byte and DICOM integer
  ranges, an `Option` type, and concatenation of equal-length blocks. The
  volume buffer, both gathered planes and the RGB buffer are laid out that
  way.
- `windowing.dfy` (module `Windowing`) holds the per-pixel window map, its
  exact integer closed form, and the RGB loop.
- `series.dfy` (module `Series`) holds the decoded-file record, the
  grouping pass, `std::map` key order, and the choice of series.
- `volume.dfy` (module `Volume`) holds the second pass as a fold, the sort,
  the packing and its offset formula, and the three plane extractions as
  functions.
- `viewer.dfy` (module `Viewer`) holds the class `MainFrame`. Its fields
  are the members the source updates. Its methods are the load, render,
  wheel and reset handlers, with the loops of the source. The array loops
  that fill the coronal and sagittal buffers are there too.

Decoding is replaced by an input record per file (`Series.DicomFile`). The
record carries:

- whether the scan-time load succeeded, and the optional series UID;
- whether the second load succeeded;
- Rows, Columns, the optional PixelSpacing, SliceThickness, and the
  optional patient name and ID;
- whether the image decoded, its width and height, the optional 16-bit
  output and the optional InstanceNumber.

`WellFormedFile` states what the decoder guarantees: a decoded image has
the size its header declares, and its output has one sample per pixel.

The model follows the code:

- On a tie in file count the series with the smallest UID wins. `std::map`
  iterates in key order and the test is a strict `>`. The first series
  encountered does not win.
- The sort is `std::sort`. Only sortedness and permutation are promised.
  Equal InstanceNumbers are in no particular order.
- Window values between the clip points are truncated, not rounded. Level
  40, width 400 and sample 40 give 127, not 128.
- The header members come from the first file that loads in the second
  pass, even when that file's image is then rejected. Slices are filtered
  against that size. The width is the only test: while it is 0, every file
  that loads overwrites the header again, field by field as present. After
  a first file with Columns 0, the name can come from that file and the
  width from the next one.
- A reload that keeps no slice has already reset the width and height to
  0. If a file of the series loaded, it has also overwritten them and the
  slice thickness from that file, plus whichever spacing and patient
  fields the file carries. The volume, depth, sliders and panels stay as
  they were.
- Spacing values of 0 or less are not replaced while loading. The
  replacement by 1.0 happens only in the display fitting, which is not
  modelled.

## Model

| member | source | states |
|---|---|---|
| Basics.Zeros | DICOM_Viewer.cpp:527 | the buffer that `resize` allocates has the requested length and holds only zeros |
| Windowing.ClampWidth | DICOM_Viewer.cpp:546 | the width used is at least 1, and a width already at least 1 is kept |
| Windowing.Lower | DICOM_Viewer.cpp:547 | the lower edge of the window, level minus half the width, in exact arithmetic |
| Windowing.Ramp | DICOM_Viewer.cpp:554 | the linear ramp (v − lower) / range · 255 in exact arithmetic |
| Windowing.WindowSample | DICOM_Viewer.cpp:551-555 | the display byte of one sample: 0 at or below `lower`, 255 at or above `lower + range`, the truncated ramp in between (its properties are the lemmas below) |
| Windowing.IntegerWindow | DICOM_Viewer.cpp:551-555 | the same map computed in integers with everything doubled, the independent reference for `WindowClosedForm` |
| Windowing.Grey | DICOM_Viewer.cpp:556 | one display pixel: three equal channels |
| Windowing.Windowed | DICOM_Viewer.cpp:550-556 | the RGB buffer of a plane: the grey pixels of the windowed samples with the clamped width, in sample order |
| Windowing.RampInside | DICOM_Viewer.cpp:554 | strictly inside the window, the ramp lies strictly between 0 and 255, so the byte cast neither wraps nor saturates |
| Windowing.WindowClosedForm | DICOM_Viewer.cpp:547-555 | the double formula (clip at `lower`, clip at `lower + range`, truncated ramp) equals the integer map 0 / 255 / ⌊255·(2v − 2wl + ww) / (2ww)⌋ for every sample, level and width |
| Windowing.WindowShape | DICOM_Viewer.cpp:550-555 | samples at or below wl − ww/2 give 0; samples at or above wl + ww/2 give 255; in between, the byte p is the truncation: p·2ww ≤ 255·(2v − 2wl + ww) < (p+1)·2ww |
| Windowing.WindowMonotonic | DICOM_Viewer.cpp:550-555 | a brighter sample never shows darker |
| Windowing.DefaultWindowExamples | DICOM_Viewer.cpp:552-555 | at level 40 and width 400: −160 gives 0, 240 gives 255, and 40 gives 127 (truncation) |
| Windowing.WindowedAt | DICOM_Viewer.cpp:550-556 | the RGB buffer has three bytes per sample; bytes 3i, 3i+1 and 3i+2 all hold the windowed value of sample i with the clamped width |
| Windowing.ApplyWindow | DICOM_Viewer.cpp:546-557 | the loop writes exactly the three-equal-channel windowed buffer |
| Series.InSeries | DICOM_Viewer.cpp:430-433 | a file joins a series in the first pass when it loads and carries that UID |
| Series.Members | DICOM_Viewer.cpp:428-434 | the list of a series: the indices of its files in folder order, as `push_back` builds it |
| Series.ScannedUids | DICOM_Viewer.cpp:430-433 | the UIDs of the files that load in the first pass |
| Series.SeriesMap | DICOM_Viewer.cpp:424-434 | the `seriesMap` after the first pass: each found UID mapped to its list |
| Series.MembersSpec | DICOM_Viewer.cpp:428-434 | a file index is in a series' list iff that file loaded at scan time and carries that UID; the list is in file order |
| Series.MembersOfUnscanned | DICOM_Viewer.cpp:430-433 | a UID that no loaded file carries has no files |
| Series.SeriesMapSpec | DICOM_Viewer.cpp:424-436 | the keys of the map are exactly the UIDs found; every list is non-empty; every listed file carries its key |
| Series.SeriesMapStep | DICOM_Viewer.cpp:428-434 | one more file appends its index to its UID's list, creating the list when missing, or leaves the map alone when it did not load or has no UID |
| Series.SeriesMapPush | DICOM_Viewer.cpp:433 | a file with a UID is appended to that UID's list, which starts empty when new |
| Series.SeriesMapSkip | DICOM_Viewer.cpp:430-433 | a file that fails to load or has no UID changes nothing |
| Series.GroupBySeries | DICOM_Viewer.cpp:424-436 | the grouping loop builds exactly the series map of the folder |
| Series.StrLess | DICOM_Viewer.cpp:440 | the `std::string` `<` behind the map's key order: lexicographic on characters, a proper prefix first |
| Series.StrLessIrreflexive | DICOM_Viewer.cpp:440 | the key order of `std::map<std::string, …>` is irreflexive |
| Series.StrLessTransitive | DICOM_Viewer.cpp:440 | that order is transitive |
| Series.StrLessTotal | DICOM_Viewer.cpp:440 | any two different UIDs are ordered one way or the other |
| Series.LeastExists | DICOM_Viewer.cpp:440 | every non-empty set of UIDs has a first key in map order |
| Series.IsBest | DICOM_Viewer.cpp:439-442 | the UID the selection loop settles on: no series has more files, and no series with as many has a smaller key |
| Series.BestIsUnique | DICOM_Viewer.cpp:439-442 | the choice is deterministic: at most one UID has the largest count and no smaller key with the same count |
| Series.SelectBest | DICOM_Viewer.cpp:439-442 | the selection loop returns the series with the largest file count; on a tie, the smallest UID in key order |
| Volume.InstanceOf | DICOM_Viewer.cpp:470-471 | the instance a kept slice carries: InstanceNumber, or 0 when it is missing |
| Volume.Fits | DICOM_Viewer.cpp:467-469 | a file's image is kept when its status is normal, its size is the current W×H and it yields output |
| Volume.SliceOf | DICOM_Viewer.cpp:470-473 | the slice pushed for a kept file: its instance and its decoded samples |
| Volume.Step | DICOM_Viewer.cpp:452-475 | one iteration of the second pass: a file that does not load changes nothing; one that loads while the width is 0 reads the header; a fitting image is appended |
| Volume.Pass | DICOM_Viewer.cpp:451-478 | the second pass: the iterations over the chosen series' files in order, from the header the frame holds |
| Volume.Decoded | DICOM_Viewer.cpp:467-473 | the independent statement of which files survive at a given W×H: those that load and fit, in series order |
| Volume.ReadHeader | DICOM_Viewer.cpp:455-465 | the first loaded file sets width from Columns, height from Rows, and the thickness; PixelSpacing, when present, sets the row spacing from its first value and the column spacing from its second; name and ID are taken when present; each absent field keeps its old value |
| Volume.PassKeepsInvariant | DICOM_Viewer.cpp:451-478 | starting from width 0: while the width is still 0 nothing is kept and no loaded file had Columns; once a slice is kept the size is at least 1×1; every kept slice has exactly W·H samples |
| Volume.RetainedHaveCanonicalSize | DICOM_Viewer.cpp:467-473 | every retained slice has the pixel count volWidth·volHeight of the header that the pass leaves behind |
| Volume.DecodedEmpty | DICOM_Viewer.cpp:467 | when every file of the series that loads has Columns 0, no slice has a decoded image of any size, so none is kept |
| Volume.PassKeepsDecoded | DICOM_Viewer.cpp:451-478 | the kept slices are exactly the loaded files whose image decoded at the final W×H, in series order (an independent filter definition), with a missing InstanceNumber read as 0 |
| Volume.PassNothingLoads | DICOM_Viewer.cpp:451-453 | when no file of the series loads, the header is untouched and nothing is kept |
| Volume.HeaderFromFirstLoaded | DICOM_Viewer.cpp:455-465 | the header after the pass is the one read from the first file that loads, when its Columns is non-zero, whether or not its image is kept (a file with Columns 0 leaves the width at 0, so the next loaded file reads the header again) |
| Volume.SpacingCarriesOver | DICOM_Viewer.cpp:460 | with no PixelSpacing in the series, the spacing of the previous load is kept |
| Volume.SortedByInstance | DICOM_Viewer.cpp:480 | what the comparator `a.instance < b.instance` sorts to: non-decreasing instance numbers |
| Volume.IndexOfLeast | DICOM_Viewer.cpp:480 | returns a position from `from` on whose InstanceNumber is the smallest of the rest |
| Volume.SelectStep | DICOM_Viewer.cpp:480 | swapping the least remaining slice into place extends the sorted prefix, which stays below the rest |
| Volume.SwapPermutes | DICOM_Viewer.cpp:480 | a swap keeps the multiset of slices |
| Volume.SortByInstance | DICOM_Viewer.cpp:480 | the in-place sort leaves the array in non-decreasing InstanceNumber order and a permutation of its input |
| Volume.SortSlices | DICOM_Viewer.cpp:480 | the sorted vector is ordered by InstanceNumber and a permutation of the kept slices |
| Volume.PermutationKeepsSizes | DICOM_Viewer.cpp:480-485 | sorting keeps every slice at W·H samples |
| Volume.PixelsOf | DICOM_Viewer.cpp:485 | there is one pixel run per slice |
| Volume.Pack | DICOM_Viewer.cpp:482-485 | appending each sorted slice's pixels gives the concatenation of the runs in sorted order |
| Volume.Offset | DICOM_Viewer.cpp:523 | the offset z·W·H + y·W + x of voxel (x, y, z), the formula of lines 523, 529 and 537 |
| Volume.LaidOutAt | DICOM_Viewer.cpp:482-485 | voxel (x, y, z) of the buffer is pixel (x, y) of slice z |
| Volume.LaidOut | DICOM_Viewer.cpp:482-485 | that holds for every in-range voxel |
| Volume.InPlane | DICOM_Viewer.cpp:523 | for x < W and y < H the in-slice offset y·W + x is below W·H |
| Volume.VolumeLayout | DICOM_Viewer.cpp:482-485 | the packed buffer has W·H·D samples, and the sample at z·W·H + y·W + x is pixel (x, y) of the z-th sorted slice |
| Volume.UniformPixels | DICOM_Viewer.cpp:485 | pixel runs of equal-size slices are uniform blocks |
| Volume.PackedLayout | DICOM_Viewer.cpp:482-485 | the layout holds at every in-range (x, y, z) at once |
| Volume.PackedLength | DICOM_Viewer.cpp:484-485 | the packed buffer has D·W·H samples |
| Volume.AxialPlane | DICOM_Viewer.cpp:521-524 | the axial plane at depth z: the whole W·H block at z·W·H when it fits in the buffer, and nothing otherwise |
| Volume.AxialRoundTrip | DICOM_Viewer.cpp:521-524 | the axial plane at depth z of a freshly packed volume is exactly the z-th sorted slice's pixels |
| Volume.AxialBeyondDepth | DICOM_Viewer.cpp:523-524 | at a depth at or past D the block does not fit and nothing is extracted |
| Volume.CoronalRow | DICOM_Viewer.cpp:529-530 | each coronal row is W samples, whether copied or left zero |
| Volume.CoronalRows | DICOM_Viewer.cpp:528-531 | the coronal plane has D rows of W samples |
| Volume.PlaneSizes | DICOM_Viewer.cpp:526-534 | the coronal plane is W·D samples and the sagittal plane H·D, whatever the buffer holds |
| Volume.CoronalPlane | DICOM_Viewer.cpp:525-531 | the coronal plane at row y: its D rows, first depth first |
| Volume.CoronalAt | DICOM_Viewer.cpp:525-531 | on a W·H·D buffer, coronal pixel (x, z) at row y is voxel (x, y, z) |
| Volume.CoronalOutside | DICOM_Viewer.cpp:530 | a row whose run reaches past the buffer stays zero |
| Volume.SagittalRow | DICOM_Viewer.cpp:536-539 | each sagittal row is H samples |
| Volume.SagittalRows | DICOM_Viewer.cpp:535-540 | the sagittal plane has D rows of H samples |
| Volume.SagittalPlane | DICOM_Viewer.cpp:532-540 | the sagittal plane at column x: its D rows, first depth first |
| Volume.SagittalAt | DICOM_Viewer.cpp:532-540 | sagittal pixel (y, z) at column x is voxel (x, y, z) when its offset is inside the buffer, and 0 otherwise; for x < W on a W·H·D buffer the offset is always inside |
| Viewer.WheelStep | DICOM_Viewer.cpp:402-406 | the stepped value is clamped into the slider's range; it is the exact step when that is in range, the maximum above it, and the minimum below it |
| Viewer.WheelStepMoves | DICOM_Viewer.cpp:402-406 | from a valid position a notch moves the value towards the turned side, by at most `direction` |
| Viewer.MainFrame.SliceSlider | DICOM_Viewer.cpp:397-399 | the slider a view's wheel moves and its slice index comes from: axial Z, coronal Y, sagittal X (also the wiring at lines 508-510) |
| Viewer.Shown | DICOM_Viewer.cpp:543 | a panel takes the new image when there is one and otherwise keeps its old image |
| Viewer.CopyRun | DICOM_Viewer.cpp:530 | `std::copy` puts the run at the offset and leaves the rest of the buffer as it was |
| Viewer.CoronalStep | DICOM_Viewer.cpp:529-530 | one depth of the coronal loop writes that depth's row over the zeros and nothing else |
| Viewer.SagittalStep | DICOM_Viewer.cpp:536-539 | the inner sagittal loop writes that depth's row over the zeros and nothing else |
| Viewer.CoronalFill | DICOM_Viewer.cpp:528-531 | one pass of the outer coronal loop extends the filled prefix by one row, and the rest stays zero |
| Viewer.SagittalFill | DICOM_Viewer.cpp:535-540 | one pass of the outer sagittal loop extends the filled prefix by one row, and the rest stays zero |
| Viewer.LoadPass | DICOM_Viewer.cpp:444-478 | the second pass a load runs for the chosen series, from the frame's header with width and height reset to 0 (line 449) |
| Viewer.NothingLoadsResetsSize | DICOM_Viewer.cpp:449-461 | when no file of the chosen series loads, the reload leaves only the width and height reset to 0 and keeps nothing |
| Viewer.ChosenIndices | DICOM_Viewer.cpp:444 | the chosen series' list names files of the folder |
| Viewer.ChooseSeries | DICOM_Viewer.cpp:424-444 | reports a series iff some file has a UID; the series reported is the best one, and its list is its map entry, non-empty and within the folder |
| Viewer.MainFrame.Valid | DICOM_Viewer.cpp:222-243 | every slider holds a value in its range; the slice sliders start at 0; the window sliders keep the ranges [−1000, 3000] and [1, 4000] |
| Viewer.MainFrame.constructor | DICOM_Viewer.cpp:222-243 | a new frame has no volume, 1.0 spacing, "Unknown" name and ID, slice sliders at 0 in [0, 1], level 40 in [−1000, 3000], width 400 in [1, 4000], and no images |
| Viewer.MainFrame.CurrentHeader | DICOM_Viewer.cpp:455-464 | the members the second pass overwrites: width, height, spacing, thickness, name and ID |
| Viewer.MainFrame.Panel | DICOM_Viewer.cpp:508-510 | the image each of the three panels was last given |
| Viewer.MainFrame.Plane | DICOM_Viewer.cpp:521-541 | the plane a view extracts: axial W×H, coronal W×D, sagittal H×D, with its samples |
| Viewer.MainFrame.Render | DICOM_Viewer.cpp:543-557 | what a view hands to its panel: nothing when the plane is empty, otherwise the windowed plane at its size |
| Viewer.MainFrame.AxialShowsSlice | DICOM_Viewer.cpp:521-524 | on a packed volume the axial view at depth z shows the z-th sorted slice, windowed, at W×H |
| Viewer.MainFrame.ExtractAxial | DICOM_Viewer.cpp:521-524 | the axial extraction yields the axial plane of the current volume |
| Viewer.MainFrame.ExtractCoronal | DICOM_Viewer.cpp:525-531 | the zero-filled buffer and per-row copies yield the coronal plane of the current volume |
| Viewer.MainFrame.ExtractSagittal | DICOM_Viewer.cpp:532-540 | the zero-filled buffer and per-sample gather yield the sagittal plane of the current volume |
| Viewer.MainFrame.UpdateOneView | DICOM_Viewer.cpp:513-557 | the view's panel gets the windowed plane at its size, or is left alone when the plane is empty; the other panels are untouched |
| Viewer.MainFrame.Rendered | DICOM_Viewer.cpp:502-510 | a panel after a redraw: its view rendered at its own slider's value with the current level and width, or its old image when that is empty |
| Viewer.MainFrame.UpdateAllViews | DICOM_Viewer.cpp:500-511 | with no volume nothing changes; otherwise axial is rendered at slider Z, coronal at Y and sagittal at X, all with the current level and width |
| Viewer.MainFrame.OnPanelWheel | DICOM_Viewer.cpp:394-409 | with no volume nothing changes; otherwise only the view's own slider steps, with clamping, and all views are redrawn |
| Viewer.MainFrame.OnResetBtn | DICOM_Viewer.cpp:320-331 | with no volume nothing changes; otherwise each slice slider goes to half its maximum, level to 40 and width to 400, and all views are redrawn |
| Viewer.MainFrame.ReadSlices | DICOM_Viewer.cpp:449-478 | the second-pass loop leaves the header and the kept slices the pass computes from the old header |
| Viewer.MainFrame.PackVolume | DICOM_Viewer.cpp:482-485 | the depth is the slice count; the buffer is the non-empty concatenation, D·W·H long, laid out at z·W·H + y·W + x |
| Viewer.MainFrame.FitSliders | DICOM_Viewer.cpp:489-494 | each slice slider gets range [0, extent − 1] at extent / 2, and all views are redrawn |
| Viewer.MainFrame.InstallSlices | DICOM_Viewer.cpp:480-494 | sort, pack, fit and redraw: the volume is the sorted permutation of the kept slices with the layout above, and sliders and panels are as after a load |
| Viewer.MainFrame.OnLoadBtn | DICOM_Viewer.cpp:424-494 | no UID means nothing changes; otherwise the best series is chosen and the header is the pass's; no kept slice leaves the volume, sliders and panels alone (header already overwritten); on success the volume is the sorted permutation of the kept slices, packed and laid out, with sliders at the midpoints and all views redrawn |

## Left out

- The folder dialog, file globbing and the empty-folder early return (lines 418-422) are I/O. The model starts from the decoded records of the listed files.
- Progress dialogs (lines 425-427, 435, 446-447, 477) only display progress.
- DCMTK loading and decoding (lines 429-433, 452-475) is foreign code. It is replaced by the `DicomFile` record and the `WellFormedFile` decoder contract.
- `GetInfoString`, `infoText`, `EnableControls`, the labels, the language switch, the layout switch and the `ImagePanel` drawing are UI code.
- The spacing-ratio `scaleY`, the display fitting to 800 pixels, `Rescale` (lines 515-519, 559-566) and the crosshair normalisation (lines 568-569) are floating point. So are the crosshair arguments `cross1` and `cross2` that `UpdateAllViews` passes (X, Y for axial; X, Z for coronal; Y, Z for sagittal, lines 508-510): they feed only that normalisation, and `UpdateOneView` does not take them. The normalisation also divides by zero when a plane is one pixel wide or high. A panel's `Picture` is the windowed plane before fitting.
- The model does not cover overflow of the 32-bit `int` products: `volWidth * volHeight` in `OnLoadBtn` (line 472) and `w*h`, `z*w` and `z*w + y` in `UpdateOneView` (lines 523-524, 527-538), and the loop bound `i<w*h` and index `i*3` of the window loop (lines 550, 556). Sizes are unbounded naturals. With 16-bit Rows and Columns these products can exceed 2³¹−1 (65535·65535 does), so the model describes the program only for images whose products stay in range.
- The window map's `double` arithmetic is treated as exact: `lower` is a half-integer and is exact in `double`, but the division by `range` and the multiplication by 255.0 each round, and the model does not capture that rounding. It states the byte the exact formula truncates to.
- Viewer.MainFrame.OnLoadBtn: the method does not promise which of two slices with equal InstanceNumber comes first, because `std::sort` is not stable.
- The sliders are the only place slice indices come from. The extraction functions are defined for every index, and the lemmas state their values only for in-range indices. Out of range, an index can read a neighbouring row or slice rather than zero.
- Volume.SliceOf keeps the whole decoded output, where line 472 copies exactly `volWidth * volHeight` samples. The two agree because the decoder contract `WellFormedFile` gives a decoded image of the kept size exactly that many samples. The W·H length of kept slices therefore rests on that contract, not on the copy.
- Event binding and `wxSlider` internals are reduced to a range and a position. The window sliders are changed only by their range-checked widget.
