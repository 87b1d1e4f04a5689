/** The second pass of `MainFrame::OnLoadBtn` and the layout of the volume:
    the files of the chosen series are read again in folder order, the
    first one that loads fixes the canonical width and height (and the
    spacing and patient fields), slices of another size are dropped, the
    kept slices are sorted by InstanceNumber with `std::sort` and their
    buffers are concatenated into one W*H*D buffer. The three plane
    extractions of `MainFrame::UpdateOneView` are specified here too, as
    functions of that buffer. */
module Volume {
  import opened Basics
  import opened Series

  /** `MainFrame::SliceRaw`: an instance number and the slice's samples. */
  datatype SliceRaw = SliceRaw(instance: int, pixels: seq<Sample>)

  /** The members the second pass overwrites from the first file that
      loads: `volWidth`, `volHeight`, `pxSpcX`, `pxSpcY`, `sliceThick`,
      `patientName`, `patientID`. */
  datatype Header = Header(width: nat, height: nat, spcX: real, spcY: real, thick: real, name: string, id: string)

  /** The header branch: Columns and Rows are always stored, PixelSpacing
      and the patient strings only when the decoder finds them, and the
      slice thickness is whatever the decoder leaves. */
  function ReadHeader(h: Header, f: DicomFile): (r: Header)
    ensures r.width == f.columns && r.height == f.rows && r.thick == f.sliceThickness
    ensures f.pixelSpacing.Some? ==> r.spcY == f.pixelSpacing.value.0 && r.spcX == f.pixelSpacing.value.1
    ensures f.pixelSpacing.None? ==> r.spcX == h.spcX && r.spcY == h.spcY
    ensures f.patientName.Some? ==> r.name == f.patientName.value
    ensures f.patientId.Some? ==> r.id == f.patientId.value
    ensures f.patientName.None? ==> r.name == h.name
    ensures f.patientId.None? ==> r.id == h.id
  {
    Header(f.columns, f.rows,
      if f.pixelSpacing.Some? then f.pixelSpacing.value.1 else h.spcX,
      if f.pixelSpacing.Some? then f.pixelSpacing.value.0 else h.spcY,
      f.sliceThickness,
      if f.patientName.Some? then f.patientName.value else h.name,
      if f.patientId.Some? then f.patientId.value else h.id)
  }

  /** The instance number a kept slice carries: InstanceNumber, or 0 when
      the file has none. */
  function InstanceOf(f: DicomFile): int
  {
    if f.instanceNumber.Some? then f.instanceNumber.value else 0
  }

  /** The image of `f` is kept against canonical size `w` x `h`. */
  predicate Fits(f: DicomFile, w: nat, h: nat)
  {
    f.imageOk && f.imageWidth == w && f.imageHeight == h && f.pixels.Some?
  }

  /** The slice kept for `f`: its instance number and its decoded
      samples. */
  function SliceOf(f: DicomFile): SliceRaw
    requires f.pixels.Some?
  {
    SliceRaw(InstanceOf(f), f.pixels.value)
  }

  /** The header and `tempSlices` while the second pass runs. */
  datatype PassState = PassState(header: Header, slices: seq<SliceRaw>)

  /** One iteration of the second pass. */
  function Step(st: PassState, f: DicomFile): PassState
  {
    if !f.loadOk then st
    else
      var h := if st.header.width == 0 then ReadHeader(st.header, f) else st.header;
      PassState(h, st.slices + if Fits(f, h.width, h.height) then [SliceOf(f)] else [])
  }

  predicate Indices(files: seq<DicomFile>, target: seq<nat>)
  {
    forall i :: 0 <= i < |target| ==> target[i] < |files|
  }

  /** The second pass over the files `target` of the chosen series,
      starting from header `h0`. */
  function Pass(files: seq<WellFormedFile>, target: seq<nat>, h0: Header): PassState
    requires Indices(files, target)
  {
    if target == [] then PassState(h0, [])
    else
      var k := |target| - 1;
      Step(Pass(files, target[..k], h0), files[target[k]])
  }

  /** The slices of the series that load, decode, and have size `w` x `h`,
      in folder order: an independent statement of which files survive. */
  function Decoded(files: seq<DicomFile>, target: seq<nat>, w: nat, h: nat): seq<SliceRaw>
    requires Indices(files, target)
  {
    if target == [] then []
    else
      var k := |target| - 1;
      var f := files[target[k]];
      Decoded(files, target[..k], w, h) + if f.loadOk && Fits(f, w, h) then [SliceOf(f)] else []
  }

  /** What holds after every prefix of the second pass when it starts with
      `volWidth = 0`: while no width is known nothing is kept and every file
      that loaded had no Columns; once slices are kept, the size is at
      least 1x1 and every kept slice has exactly W*H samples. */
  predicate PassInvariant(files: seq<WellFormedFile>, target: seq<nat>, st: PassState)
    requires Indices(files, target)
  {
    && (st.header.width == 0 ==> st.slices == [] && forall i :: 0 <= i < |target| && files[target[i]].loadOk ==> files[target[i]].columns == 0)
    && (st.slices != [] ==> st.header.width >= 1 && st.header.height >= 1)
    && (forall s :: s in st.slices ==> |s.pixels| == st.header.width * st.header.height)
  }

  lemma {:induction false} PassKeepsInvariant(files: seq<WellFormedFile>, target: seq<nat>, h0: Header)
    requires Indices(files, target) && h0.width == 0
    ensures PassInvariant(files, target, Pass(files, target, h0))
  {
    if target != [] {
      var k := |target| - 1;
      PassKeepsInvariant(files, target[..k], h0);
      var st := Pass(files, target[..k], h0);
      var f := files[target[k]];
      assert f.WellFormed();
      assert forall i :: 0 <= i < k ==> target[..k][i] == target[i];
    }
  }

  /** Every kept slice has the canonical size, and if any slice is kept the
      canonical size is at least 1x1. */
  lemma RetainedHaveCanonicalSize(files: seq<WellFormedFile>, target: seq<nat>, h0: Header)
    requires Indices(files, target) && h0.width == 0
    ensures var st := Pass(files, target, h0);
      && (st.slices != [] ==> st.header.width >= 1 && st.header.height >= 1)
      && forall s :: s in st.slices ==> |s.pixels| == st.header.width * st.header.height
  {
    PassKeepsInvariant(files, target, h0);
  }

  lemma {:induction false} DecodedEmpty(files: seq<WellFormedFile>, target: seq<nat>, w: nat, h: nat)
    requires Indices(files, target)
    requires forall i :: 0 <= i < |target| && files[target[i]].loadOk ==> files[target[i]].columns == 0
    ensures Decoded(files, target, w, h) == []
  {
    if target != [] {
      var k := |target| - 1;
      assert files[target[k]].WellFormed();
      assert forall i :: 0 <= i < k ==> target[..k][i] == target[i];
      DecodedEmpty(files, target[..k], w, h);
    }
  }

  /** The slices the second pass keeps are exactly the files of the series
      that load, decode and have the canonical size, in folder order; so the
      volume depth is their number. */
  lemma {:induction false} PassKeepsDecoded(files: seq<WellFormedFile>, target: seq<nat>, h0: Header)
    requires Indices(files, target) && h0.width == 0
    ensures var st := Pass(files, target, h0);
      st.slices == Decoded(files, target, st.header.width, st.header.height)
  {
    if target != [] {
      var k := |target| - 1;
      var prev := Pass(files, target[..k], h0);
      var st := Pass(files, target, h0);
      PassKeepsInvariant(files, target[..k], h0);
      if prev.header.width == 0 {
        assert forall i :: 0 <= i < k ==> target[..k][i] == target[i];
        DecodedEmpty(files, target[..k], st.header.width, st.header.height);
      } else {
        PassKeepsDecoded(files, target[..k], h0);
      }
    }
  }

  lemma {:induction false} PassNothingLoads(files: seq<WellFormedFile>, target: seq<nat>, h0: Header)
    requires Indices(files, target)
    requires forall i :: 0 <= i < |target| ==> !files[target[i]].loadOk
    ensures Pass(files, target, h0) == PassState(h0, [])
  {
    if target != [] {
      var k := |target| - 1;
      assert forall i :: 0 <= i < k ==> target[..k][i] == target[i];
      PassNothingLoads(files, target[..k], h0);
    }
  }

  /** The canonical size, spacing and patient fields come from the first
      file of the series that loads, even when that file's own image is
      then rejected. */
  lemma {:induction false} HeaderFromFirstLoaded(files: seq<WellFormedFile>, target: seq<nat>, h0: Header, j: nat)
    requires Indices(files, target) && h0.width == 0
    requires j < |target| && files[target[j]].loadOk && files[target[j]].columns != 0
    requires forall i :: 0 <= i < j ==> !files[target[i]].loadOk
    ensures Pass(files, target, h0).header == ReadHeader(h0, files[target[j]])
  {
    var k := |target| - 1;
    assert forall i :: 0 <= i < k ==> target[..k][i] == target[i];
    if k == j {
      PassNothingLoads(files, target[..k], h0);
    } else {
      HeaderFromFirstLoaded(files, target[..k], h0, j);
    }
  }

  /** Spacing is not reset between loads: when no loaded file of the series
      carries PixelSpacing, the previous values stay. */
  lemma {:induction false} SpacingCarriesOver(files: seq<WellFormedFile>, target: seq<nat>, h0: Header)
    requires Indices(files, target)
    requires forall i :: 0 <= i < |target| ==> files[target[i]].pixelSpacing.None?
    ensures Pass(files, target, h0).header.spcX == h0.spcX
    ensures Pass(files, target, h0).header.spcY == h0.spcY
  {
    if target != [] {
      var k := |target| - 1;
      assert forall i :: 0 <= i < k ==> target[..k][i] == target[i];
      SpacingCarriesOver(files, target[..k], h0);
    }
  }

  predicate SortedByInstance(s: seq<SliceRaw>)
  {
    forall p, q :: 0 <= p < q < |s| ==> s[p].instance <= s[q].instance
  }

  /** The position of a least instance number in `a[from..]`. */
  method IndexOfLeast(a: array<SliceRaw>, from: nat) returns (m: nat)
    requires from < a.Length
    ensures from <= m < a.Length
    ensures forall q :: from <= q < a.Length ==> a[m].instance <= a[q].instance
  {
    m := from;
    var j := from + 1;
    while j < a.Length
      invariant from <= m < a.Length && from + 1 <= j <= a.Length
      invariant forall q :: from <= q < j ==> a[m].instance <= a[q].instance
    {
      if a[j].instance < a[m].instance {
        m := j;
      }
      j := j + 1;
    }
  }

  /** The first `i` slices are in order and none exceeds a later one. */
  predicate SelectedPrefix(s: seq<SliceRaw>, i: nat)
  {
    && i <= |s|
    && (forall p, q :: 0 <= p < q < i ==> s[p].instance <= s[q].instance)
    && (forall p, q :: 0 <= p < i <= q < |s| ==> s[p].instance <= s[q].instance)
  }

  /** Swapping a least remaining slice into position `i` extends the
      ordered prefix by one. */
  lemma SelectStep(s: seq<SliceRaw>, i: nat, m: nat)
    requires SelectedPrefix(s, i) && i <= m < |s|
    requires forall q :: i <= q < |s| ==> s[m].instance <= s[q].instance
    ensures SelectedPrefix(s[i := s[m]][m := s[i]], i + 1)
  {
  }

  /** A swap keeps the same slices. */
  lemma SwapPermutes(s: seq<SliceRaw>, i: nat, m: nat)
    requires i < |s| && m < |s|
    ensures multiset(s[i := s[m]][m := s[i]]) == multiset(s)
  {
  }

  /** `std::sort` by instance number: the result is ordered and a
      permutation of the input; the relative order of equal instance
      numbers is left open, as `std::sort` is not stable. */
  method SortByInstance(a: array<SliceRaw>)
    modifies a
    ensures SortedByInstance(a[..])
    ensures multiset(a[..]) == old(multiset(a[..]))
  {
    var i := 0;
    while i < a.Length
      invariant SelectedPrefix(a[..], i)
      invariant multiset(a[..]) == old(multiset(a[..]))
    {
      var m := IndexOfLeast(a, i);
      ghost var before := a[..];
      SelectStep(before, i, m);
      SwapPermutes(before, i, m);
      a[i], a[m] := a[m], a[i];
      assert a[..] == before[i := before[m]][m := before[i]];
      i := i + 1;
    }
  }

  /** `tempSlices` sorted in a vector, as the load does it. */
  method SortSlices(slices: seq<SliceRaw>) returns (sorted: seq<SliceRaw>)
    ensures SortedByInstance(sorted)
    ensures multiset(sorted) == multiset(slices)
  {
    var a := new SliceRaw[|slices|](i requires 0 <= i < |slices| => slices[i]);
    assert a[..] == slices;
    SortByInstance(a);
    sorted := a[..];
  }

  /** Sorting neither adds nor loses a slice, so the sorted slices keep the
      canonical size. */
  lemma PermutationKeepsSizes(sorted: seq<SliceRaw>, slices: seq<SliceRaw>, n: nat)
    requires multiset(sorted) == multiset(slices)
    requires forall s :: s in slices ==> |s.pixels| == n
    ensures forall s :: s in sorted ==> |s.pixels| == n
  {
    forall s | s in sorted
      ensures |s.pixels| == n
    {
      assert s in multiset(sorted);
    }
  }

  function PixelsOf(slices: seq<SliceRaw>): (rows: seq<seq<Sample>>)
    ensures |rows| == |slices|
  {
    seq(|slices|, i requires 0 <= i < |slices| => slices[i].pixels)
  }

  /** The packing loop: `volumeData.insert(end, s.pixels)` for each slice
      in sorted order. */
  method Pack(slices: seq<SliceRaw>) returns (data: seq<Sample>)
    ensures data == Concat(PixelsOf(slices))
  {
    data := [];
    var k := 0;
    while k < |slices|
      invariant 0 <= k <= |slices|
      invariant data == Concat(PixelsOf(slices)[..k])
    {
      assert PixelsOf(slices)[..k + 1][..k] == PixelsOf(slices)[..k];
      data := data + slices[k].pixels;
      k := k + 1;
    }
    assert PixelsOf(slices)[..k] == PixelsOf(slices);
  }

  /** Offset of voxel (x, y, z) in a W x H x D buffer. */
  function Offset(x: nat, y: nat, z: nat, w: nat, h: nat): nat
  {
    z * (w * h) + y * w + x
  }

  lemma InPlane(x: nat, y: nat, w: nat, h: nat)
    requires x < w && y < h
    ensures y * w + x < w * h
  {
    MulStep(y, w);
    MulMono(y + 1, h, w);
  }

  /** The packed buffer has W*H*D samples and voxel (x, y, z) is pixel
      (x, y) of the z-th slice. */
  lemma VolumeLayout(slices: seq<SliceRaw>, w: nat, h: nat, x: nat, y: nat, z: nat)
    requires forall s :: s in slices ==> |s.pixels| == w * h
    requires x < w && y < h && z < |slices|
    ensures |Concat(PixelsOf(slices))| == |slices| * (w * h)
    ensures y * w + x < w * h
    ensures Offset(x, y, z, w, h) < |Concat(PixelsOf(slices))|
    ensures Concat(PixelsOf(slices))[Offset(x, y, z, w, h)] == slices[z].pixels[y * w + x]
  {
    assert forall i :: 0 <= i < |slices| ==> slices[i] in slices;
    InPlane(x, y, w, h);
    ConcatAt(PixelsOf(slices), w * h, z, y * w + x);
  }

  lemma UniformPixels(slices: seq<SliceRaw>, n: nat)
    requires forall s :: s in slices ==> |s.pixels| == n
    ensures Uniform(PixelsOf(slices), n)
  {
    assert forall i :: 0 <= i < |slices| ==> slices[i] in slices;
  }

  /** Voxel (x, y, z) of `vol` is pixel (x, y) of slice `z`. */
  predicate LaidOutAt(vol: seq<Sample>, slices: seq<SliceRaw>, w: nat, h: nat, x: nat, y: nat, z: nat)
  {
    z < |slices| && y * w + x < |slices[z].pixels| && Offset(x, y, z, w, h) < |vol|
      && vol[Offset(x, y, z, w, h)] == slices[z].pixels[y * w + x]
  }

  /** Every voxel of `vol` is the matching pixel of its slice. */
  predicate LaidOut(vol: seq<Sample>, slices: seq<SliceRaw>, w: nat, h: nat)
  {
    forall x: nat, y: nat, z: nat :: x < w && y < h && z < |slices| ==> LaidOutAt(vol, slices, w, h, x, y, z)
  }

  /** The whole packed buffer: every voxel (x, y, z) is pixel (x, y) of
      the z-th slice. */
  lemma PackedLayout(slices: seq<SliceRaw>, w: nat, h: nat)
    requires forall s :: s in slices ==> |s.pixels| == w * h
    ensures LaidOut(Concat(PixelsOf(slices)), slices, w, h)
  {
    var vol := Concat(PixelsOf(slices));
    forall x: nat, y: nat, z: nat | x < w && y < h && z < |slices|
      ensures LaidOutAt(vol, slices, w, h, x, y, z)
    {
      VolumeLayout(slices, w, h, x, y, z);
    }
  }

  /** The packed buffer holds W*H*D samples. */
  lemma PackedLength(slices: seq<SliceRaw>, w: nat, h: nat)
    requires forall s :: s in slices ==> |s.pixels| == w * h
    ensures |Concat(PixelsOf(slices))| == |slices| * (w * h)
  {
    UniformPixels(slices, w * h);
    ConcatLength(PixelsOf(slices), w * h);
  }

  /** The axial block copy: the whole W*H block at depth `z`, or nothing
      when it does not fit in the buffer. */
  function AxialPlane(vol: seq<Sample>, w: nat, h: nat, z: nat): seq<Sample>
  {
    var off := Offset(0, 0, z, w, h);
    if off + w * h <= |vol| then vol[off .. off + w * h] else []
  }

  /** Axial extraction at depth z of a freshly packed volume gives back
      exactly the z-th sorted slice. */
  lemma AxialRoundTrip(slices: seq<SliceRaw>, w: nat, h: nat, z: nat)
    requires forall s :: s in slices ==> |s.pixels| == w * h
    requires z < |slices|
    ensures AxialPlane(Concat(PixelsOf(slices)), w, h, z) == slices[z].pixels
  {
    assert forall i :: 0 <= i < |slices| ==> slices[i] in slices;
    ConcatBlock(PixelsOf(slices), w * h, z);
  }

  /** Past the last slice the block does not fit, so nothing is extracted
      (and the view is left as it was). */
  lemma AxialBeyondDepth(vol: seq<Sample>, w: nat, h: nat, d: nat, z: nat)
    requires |vol| == d * (w * h) && w * h > 0 && z >= d
    ensures AxialPlane(vol, w, h, z) == []
  {
    MulMono(d, z, w * h);
  }

  /** Row z of the coronal plane: the W samples of row `y` of slice `z`,
      or zeros when that run does not fit in the buffer. */
  function CoronalRow(vol: seq<Sample>, w: nat, h: nat, y: nat, z: nat): (r: seq<Sample>)
    ensures |r| == w
  {
    var base := Offset(0, y, z, w, h);
    if base + w <= |vol| then vol[base .. base + w] else Zeros(w)
  }

  function CoronalRows(vol: seq<Sample>, w: nat, h: nat, d: nat, y: nat): (rows: seq<seq<Sample>>)
    ensures |rows| == d && Uniform(rows, w)
  {
    seq(d, z requires 0 <= z < d => CoronalRow(vol, w, h, y, z))
  }

  /** The coronal plane at row `y`: W wide, D high. */
  function CoronalPlane(vol: seq<Sample>, w: nat, h: nat, d: nat, y: nat): seq<Sample>
  {
    Concat(CoronalRows(vol, w, h, d, y))
  }

  /** The coronal plane is W wide and D high, the sagittal plane H wide
      and D high, whatever the buffer holds. */
  lemma PlaneSizes(vol: seq<Sample>, w: nat, h: nat, d: nat, x: nat, y: nat)
    ensures |CoronalPlane(vol, w, h, d, y)| == d * w
    ensures |SagittalPlane(vol, w, h, d, x)| == d * h
  {
    ConcatLength(CoronalRows(vol, w, h, d, y), w);
    ConcatLength(SagittalRows(vol, w, h, d, x), h);
  }

  /** For in-range indices the coronal pixel (x, z) is voxel (x, y, z). */
  lemma CoronalAt(vol: seq<Sample>, w: nat, h: nat, d: nat, x: nat, y: nat, z: nat)
    requires |vol| == d * (w * h)
    requires x < w && y < h && z < d
    ensures z * w + x < |CoronalPlane(vol, w, h, d, y)|
    ensures Offset(x, y, z, w, h) < |vol|
    ensures CoronalPlane(vol, w, h, d, y)[z * w + x] == vol[Offset(x, y, z, w, h)]
  {
    var base := Offset(0, y, z, w, h);
    InPlane(w - 1, y, w, h);
    MulStep(z, w * h);
    MulMono(z + 1, d, w * h);
    assert base + w <= |vol|;
    assert CoronalRow(vol, w, h, y, z) == vol[base .. base + w];
    ConcatAt(CoronalRows(vol, w, h, d, y), w, z, x);
    assert CoronalRows(vol, w, h, d, y)[z] == vol[base .. base + w];
  }

  /** A row whose run falls outside the buffer stays zero. */
  lemma CoronalOutside(vol: seq<Sample>, w: nat, h: nat, d: nat, x: nat, y: nat, z: nat)
    requires x < w && z < d
    requires Offset(0, y, z, w, h) + w > |vol|
    ensures z * w + x < |CoronalPlane(vol, w, h, d, y)|
    ensures CoronalPlane(vol, w, h, d, y)[z * w + x] == 0
  {
    ConcatAt(CoronalRows(vol, w, h, d, y), w, z, x);
  }

  /** Row z of the sagittal plane: sample (x, y', z) for every y' < H, each
      zero when its offset is outside the buffer. */
  function SagittalRow(vol: seq<Sample>, w: nat, h: nat, x: nat, z: nat): (r: seq<Sample>)
    ensures |r| == h
  {
    seq(h, y requires 0 <= y < h =>
      var idx := Offset(x, y, z, w, h);
      if idx < |vol| then vol[idx] else 0)
  }

  function SagittalRows(vol: seq<Sample>, w: nat, h: nat, d: nat, x: nat): (rows: seq<seq<Sample>>)
    ensures |rows| == d && Uniform(rows, h)
  {
    seq(d, z requires 0 <= z < d => SagittalRow(vol, w, h, x, z))
  }

  /** The sagittal plane at column `x`: H wide, D high. */
  function SagittalPlane(vol: seq<Sample>, w: nat, h: nat, d: nat, x: nat): seq<Sample>
  {
    Concat(SagittalRows(vol, w, h, d, x))
  }

  /** For in-range indices the sagittal pixel (y, z) is voxel (x, y, z);
      a position whose offset is outside the buffer stays zero. */
  lemma SagittalAt(vol: seq<Sample>, w: nat, h: nat, d: nat, x: nat, y: nat, z: nat)
    requires y < h && z < d
    ensures z * h + y < |SagittalPlane(vol, w, h, d, x)|
    ensures SagittalPlane(vol, w, h, d, x)[z * h + y] ==
      if Offset(x, y, z, w, h) < |vol| then vol[Offset(x, y, z, w, h)] else 0
    ensures |vol| == d * (w * h) && x < w ==> Offset(x, y, z, w, h) < |vol|
  {
    ConcatAt(SagittalRows(vol, w, h, d, x), h, z, y);
    if |vol| == d * (w * h) && x < w {
      InPlane(x, y, w, h);
      MulStep(z, w * h);
      MulMono(z + 1, d, w * h);
    }
  }
}
