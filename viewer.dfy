/** The volume state of `MainFrame` and the operations on it: loading a
    folder (`OnLoadBtn`), rendering the three orthogonal views
    (`UpdateAllViews`, `UpdateOneView`), stepping a slice with the mouse
    wheel (`OnPanelWheel`) and resetting the controls (`OnResetBtn`).
    Sliders are reduced to their range and position, and each panel to the
    windowed image it was last given. */
module Viewer {
  import opened Basics
  import opened Windowing
  import opened Series
  import opened Volume

  /** A `wxSlider` reduced to its range and position. */
  datatype Slider = Slider(min: int, max: int, value: int)
  {
    predicate Valid()
    {
      min <= value <= max
    }
  }

  /** The three panels, numbered 0, 1, 2 in the source. */
  datatype ViewType = Axial | Coronal | Sagittal

  /** The image a panel is given: the windowed plane, before it is fitted
      to the panel. */
  datatype Picture = Picture(width: nat, height: nat, rgb: seq<Byte>)

  datatype LoadOutcome = NoSeries | NoSlices | Loaded

  /** One wheel notch: move by `direction`, then clamp to the slider's
      minimum and then to its maximum, in that order. */
  function WheelStep(value: int, direction: int, min: int, max: int): (r: int)
    ensures min <= max ==> min <= r <= max
    ensures min <= value + direction <= max ==> r == value + direction
    ensures value + direction > max ==> r == max
    ensures min <= max && value + direction < min ==> r == min
  {
    var v := value + direction;
    var v := if v < min then min else v;
    if v > max then max else v
  }

  /** A wheel notch moves the slider by at most one position per unit of
      `direction`, towards the side the wheel turned. */
  lemma WheelStepMoves(value: int, direction: int, min: int, max: int)
    requires min <= value <= max
    ensures direction >= 0 ==> value <= WheelStep(value, direction, min, max) <= value + direction
    ensures direction <= 0 ==> value + direction <= WheelStep(value, direction, min, max) <= value
  {
  }

  /** A panel keeps its image when the view has nothing to show. */
  function Shown(current: Option<Picture>, rendered: Option<Picture>): (r: Option<Picture>)
    ensures rendered.Some? ==> r == rendered
    ensures rendered.None? ==> r == current
  {
    if rendered.Some? then rendered else current
  }

  /** The second pass a load runs for series `uid`, starting from the
      frame's previous header with width and height reset to 0. */
  function LoadPass(files: seq<WellFormedFile>, uid: string, prev: Header): PassState
    requires uid in SeriesMap(files)
  {
    ChosenIndices(files, uid);
    Pass(files, SeriesMap(files)[uid], prev.(width := 0, height := 0))
  }

  /** `std::copy` of `src` into `out` at offset `at`. */
  method CopyRun(out: array<Sample>, at: nat, src: seq<Sample>)
    requires at + |src| <= out.Length
    modifies out
    ensures out[..] == old(out[..at]) + src + old(out[at + |src|..])
  {
    forall k | 0 <= k < |src| {
      out[at + k] := src[k];
    }
  }

  /** One depth of the coronal loop: the run of row `y` at depth `z` is
      copied to `out` at `at` when it fits in the volume, and otherwise the
      zeros there stay. */
  method CoronalStep(out: array<Sample>, vol: seq<Sample>, w: nat, h: nat, y: nat, z: nat, at: nat)
    requires at + w <= out.Length
    requires out[at .. at + w] == Zeros(w)
    modifies out
    ensures out[..] == old(out[..at]) + CoronalRow(vol, w, h, y, z) + old(out[at + w..])
  {
    var base := Offset(0, y, z, w, h);
    if base + w <= |vol| {
      CopyRun(out, at, vol[base .. base + w]);
    } else {
      assert out[..] == out[..at] + out[at .. at + w] + out[at + w..];
    }
  }

  /** The inner sagittal loop at depth `z`: sample (x, y, z) for each
      y < H written to `out` at `at + y` when its offset is in the volume,
      and otherwise the zero there stays. */
  method SagittalStep(out: array<Sample>, vol: seq<Sample>, w: nat, h: nat, x: nat, z: nat, at: nat)
    requires at + h <= out.Length
    requires out[at .. at + h] == Zeros(h)
    modifies out
    ensures out[..] == old(out[..at]) + SagittalRow(vol, w, h, x, z) + old(out[at + h..])
  {
    ghost var row := SagittalRow(vol, w, h, x, z);
    ghost var pre, post := out[..at], out[at + h..];
    assert out[..] == pre + row[..0] + Zeros(h) + post by {
      assert out[..] == out[..at] + out[at .. at + h] + out[at + h..];
    }
    var y := 0;
    while y < h
      invariant 0 <= y <= h
      invariant out[..] == pre + row[..y] + Zeros(h - y) + post
    {
      PutInRun(out[..], pre, row, y, post);
      var idx := Offset(x, y, z, w, h);
      if idx < |vol| {
        out[at + y] := vol[idx];
      }
      y := y + 1;
    }
    assert row[..h] == row;
  }

  /** One pass of the outer coronal loop, stated on the whole buffer: the
      first `z` rows of the plane are in place and the rest is zero, and
      afterwards row `z` is in place too. */
  method CoronalFill(out: array<Sample>, vol: seq<Sample>, w: nat, h: nat, d: nat, y: nat, z: nat, at: nat)
    requires z < d && at == z * w && out.Length == d * w && at <= out.Length
    requires out[..] == Concat(CoronalRows(vol, w, h, d, y)[..z]) + Zeros(out.Length - at)
    modifies out
    ensures at + w <= out.Length
    ensures out[..] == Concat(CoronalRows(vol, w, h, d, y)[..z + 1]) + Zeros(out.Length - (at + w))
  {
    ghost var rows := CoronalRows(vol, w, h, d, y);
    ghost var cur := out[..];
    FillStep(rows, w, z, at, out.Length, cur);
    CoronalStep(out, vol, w, h, y, z, at);
    assert out[..] == cur[..at] + rows[z] + cur[at + w..];
  }

  /** One pass of the outer sagittal loop, stated on the whole buffer. */
  method SagittalFill(out: array<Sample>, vol: seq<Sample>, w: nat, h: nat, d: nat, x: nat, z: nat, at: nat)
    requires z < d && at == z * h && out.Length == d * h && at <= out.Length
    requires out[..] == Concat(SagittalRows(vol, w, h, d, x)[..z]) + Zeros(out.Length - at)
    modifies out
    ensures at + h <= out.Length
    ensures out[..] == Concat(SagittalRows(vol, w, h, d, x)[..z + 1]) + Zeros(out.Length - (at + h))
  {
    ghost var rows := SagittalRows(vol, w, h, d, x);
    ghost var cur := out[..];
    FillStep(rows, h, z, at, out.Length, cur);
    SagittalStep(out, vol, w, h, x, z, at);
    assert out[..] == cur[..at] + rows[z] + cur[at + h..];
  }

  /** A reload in which no file of the chosen series loads only resets the
      width and height to 0; spacing, thickness and patient fields keep
      their old values. */
  lemma NothingLoadsResetsSize(files: seq<WellFormedFile>, uid: string, prev: Header)
    requires uid in SeriesMap(files)
    requires forall i :: 0 <= i < |files| && InSeries(files[i], uid) ==> !files[i].loadOk
    ensures LoadPass(files, uid, prev) == PassState(prev.(width := 0, height := 0), [])
  {
    var target := SeriesMap(files)[uid];
    ChosenIndices(files, uid);
    assert target == Members(files, uid);
    MembersSpec(files, uid);
    forall i | 0 <= i < |target|
      ensures !files[target[i]].loadOk
    {
      assert target[i] in Members(files, uid);
    }
    PassNothingLoads(files, target, prev.(width := 0, height := 0));
  }

  /** The series a load picks always names files of the folder. */
  lemma ChosenIndices(files: seq<DicomFile>, uid: string)
    requires uid in SeriesMap(files)
    ensures Indices(files, SeriesMap(files)[uid])
  {
    var target := SeriesMap(files)[uid];
    assert target == Members(files, uid);
    MembersSpec(files, uid);
    forall i | 0 <= i < |target|
      ensures target[i] < |files|
    {
      assert target[i] in Members(files, uid);
    }
  }

  /** The first pass and the selection loop of a load: group the files by
      series and pick the best one, or report that no file has a series
      UID. */
  method ChooseSeries(files: seq<WellFormedFile>) returns (found: bool, bestUid: string, target: seq<nat>)
    ensures found <==> ScannedUids(files) != {}
    ensures found ==> IsBest(SeriesMap(files), bestUid) && target == SeriesMap(files)[bestUid]
    ensures found ==> Indices(files, target) && target != []
  {
    var seriesMap := GroupBySeries(files);
    SeriesMapSpec(files);
    if seriesMap == map[] {
      assert seriesMap.Keys == {};
      return false, "", [];
    }
    bestUid := SelectBest(seriesMap);
    target := seriesMap[bestUid];
    ChosenIndices(files, bestUid);
    found := true;
  }

  class MainFrame {
    var volumeData: seq<Sample>
    var volWidth: nat
    var volHeight: nat
    var volDepth: nat
    var pxSpcX: real
    var pxSpcY: real
    var sliceThick: real
    var patientName: string
    var patientId: string

    var sliderX: Slider
    var sliderY: Slider
    var sliderZ: Slider
    var wlSlider: Slider
    var wwSlider: Slider

    var axialPanel: Option<Picture>
    var coronalPanel: Option<Picture>
    var sagittalPanel: Option<Picture>

    /** The slice sliders start at 0 and every slider holds a value in its
        range; the window sliders keep the ranges the frame gives them. */
    ghost predicate Valid()
      reads this
    {
      && sliderX.Valid() && sliderY.Valid() && sliderZ.Valid()
      && sliderX.min == 0 && sliderY.min == 0 && sliderZ.min == 0
      && wlSlider == wlSlider.(min := -1000, max := 3000) && wlSlider.Valid()
      && wwSlider == wwSlider.(min := 1, max := 4000) && wwSlider.Valid()
    }

    /** The members the second pass of a load overwrites. */
    function CurrentHeader(): Header
      reads this
    {
      Header(volWidth, volHeight, pxSpcX, pxSpcY, sliceThick, patientName, patientId)
    }

    function Panel(view: ViewType): Option<Picture>
      reads this
    {
      match view
      case Axial => axialPanel
      case Coronal => coronalPanel
      case Sagittal => sagittalPanel
    }

    /** The slider a view's slice index comes from, and the one its wheel
        moves: axial is Z, coronal is Y, sagittal is X. */
    function SliceSlider(view: ViewType): Slider
      reads this
    {
      match view
      case Axial => sliderZ
      case Coronal => sliderY
      case Sagittal => sliderX
    }

    constructor ()
      ensures Valid()
      ensures volumeData == [] && volWidth == 0 && volHeight == 0 && volDepth == 0
      ensures pxSpcX == 1.0 && pxSpcY == 1.0 && sliceThick == 1.0
      ensures patientName == "Unknown" && patientId == "Unknown"
      ensures sliderX == sliderY == sliderZ == Slider(0, 1, 0)
      ensures wlSlider == Slider(-1000, 3000, 40) && wwSlider == Slider(1, 4000, 400)
      ensures axialPanel == coronalPanel == sagittalPanel == None
    {
      volumeData := [];
      volWidth, volHeight, volDepth := 0, 0, 0;
      pxSpcX, pxSpcY, sliceThick := 1.0, 1.0, 1.0;
      patientName, patientId := "Unknown", "Unknown";
      sliderX, sliderY, sliderZ := Slider(0, 1, 0), Slider(0, 1, 0), Slider(0, 1, 0);
      wlSlider, wwSlider := Slider(-1000, 3000, 40), Slider(1, 4000, 400);
      axialPanel, coronalPanel, sagittalPanel := None, None, None;
    }

    /** The plane a view extracts at `sliceIdx`: its width, height and
        samples. */
    function Plane(view: ViewType, sliceIdx: nat): (nat, nat, seq<Sample>)
      reads this
    {
      match view
      case Axial => (volWidth, volHeight, AxialPlane(volumeData, volWidth, volHeight, sliceIdx))
      case Coronal => (volWidth, volDepth, CoronalPlane(volumeData, volWidth, volHeight, volDepth, sliceIdx))
      case Sagittal => (volHeight, volDepth, SagittalPlane(volumeData, volWidth, volHeight, volDepth, sliceIdx))
    }

    /** What `UpdateOneView` hands to the panel, or None when the plane is
        empty and the panel is left alone. */
    function Render(view: ViewType, sliceIdx: nat, wl: int, ww: int): Option<Picture>
      reads this
    {
      var (w, h, buf) := Plane(view, sliceIdx);
      if buf == [] then None else Some(Picture(w, h, Windowed(buf, wl, ww)))
    }

    /** On a packed volume the axial view at depth `z` shows the z-th
        sorted slice, windowed, at the volume's width and height. */
    lemma AxialShowsSlice(sorted: seq<SliceRaw>, z: nat, wl: int, ww: int)
      requires volWidth >= 1 && volHeight >= 1 && z < |sorted|
      requires forall s :: s in sorted ==> |s.pixels| == volWidth * volHeight
      requires volumeData == Concat(PixelsOf(sorted))
      ensures Render(Axial, z, wl, ww) == Some(Picture(volWidth, volHeight, Windowed(sorted[z].pixels, wl, ww)))
    {
      AxialRoundTrip(sorted, volWidth, volHeight, z);
      assert sorted[z] in sorted;
      MulMono(1, volWidth, volHeight);
    }

    /** The axial block copy, guarded as a whole. */
    method ExtractAxial(sliceIdx: nat) returns (buf: seq<Sample>)
      ensures buf == AxialPlane(volumeData, volWidth, volHeight, sliceIdx)
    {
      var vol, w, h := volumeData, volWidth, volHeight;
      var off := Offset(0, 0, sliceIdx, w, h);
      if off + w * h <= |vol| {
        buf := vol[off .. off + w * h];
      } else {
        buf := [];
      }
    }

    /** The coronal loop: a zero-filled W x D buffer, and for each depth the
        run of row `sliceIdx` copied in when it fits in the volume. */
    method ExtractCoronal(sliceIdx: nat) returns (buf: seq<Sample>)
      ensures buf == CoronalPlane(volumeData, volWidth, volHeight, volDepth, sliceIdx)
    {
      var vol, width, height, depth := volumeData, volWidth, volHeight, volDepth;
      ghost var rows := CoronalRows(vol, width, height, depth, sliceIdx);
      var w, h := width, depth;
      var out := new Sample[w * h](_ => 0);
      assert out[..] == Zeros(out.Length);
      assert out.Length == h * w;
      var z, at := 0, 0;
      while z < h
        invariant 0 <= z <= h && at == z * w && at <= out.Length
        invariant out[..] == Concat(rows[..z]) + Zeros(out.Length - at)
      {
        CoronalFill(out, vol, width, height, depth, sliceIdx, z, at);
        MulStep(z, w);
        z, at := z + 1, at + w;
      }
      assert rows[..h] == rows;
      buf := out[..];
    }

    /** The sagittal loops: a zero-filled H x D buffer, filled sample by
        sample from column `sliceIdx` wherever the offset is in the
        volume. */
    method ExtractSagittal(sliceIdx: nat) returns (buf: seq<Sample>)
      ensures buf == SagittalPlane(volumeData, volWidth, volHeight, volDepth, sliceIdx)
    {
      var vol, width, height, depth := volumeData, volWidth, volHeight, volDepth;
      ghost var rows := SagittalRows(vol, width, height, depth, sliceIdx);
      var w, h := height, depth;
      var out := new Sample[w * h](_ => 0);
      assert out[..] == Zeros(out.Length);
      assert out.Length == h * w;
      var z, at := 0, 0;
      while z < h
        invariant 0 <= z <= h && at == z * w && at <= out.Length
        invariant out[..] == Concat(rows[..z]) + Zeros(out.Length - at)
      {
        SagittalFill(out, vol, width, height, depth, sliceIdx, z, at);
        MulStep(z, w);
        z, at := z + 1, at + w;
      }
      assert rows[..h] == rows;
      buf := out[..];
    }

    /** `UpdateOneView` up to the fitting step: extract, give up when the
        plane is empty, otherwise window it and hand it to the panel. */
    method UpdateOneView(view: ViewType, sliceIdx: nat, wl: int, ww: int)
      modifies this`axialPanel, this`coronalPanel, this`sagittalPanel
      ensures Panel(view) == Shown(old(Panel(view)), Render(view, sliceIdx, wl, ww))
      ensures forall other :: other != view ==> Panel(other) == old(Panel(other))
    {
      var w, h: nat;
      var buf: seq<Sample>;
      match view {
        case Axial =>
          w, h := volWidth, volHeight;
          buf := ExtractAxial(sliceIdx);
        case Coronal =>
          w, h := volWidth, volDepth;
          buf := ExtractCoronal(sliceIdx);
        case Sagittal =>
          w, h := volHeight, volDepth;
          buf := ExtractSagittal(sliceIdx);
      }
      if buf == [] {
        return;
      }
      var rgb := ApplyWindow(buf, wl, ww);
      var picture := Some(Picture(w, h, rgb));
      match view {
        case Axial => axialPanel := picture;
        case Coronal => coronalPanel := picture;
        case Sagittal => sagittalPanel := picture;
      }
    }

    /** The panels after `UpdateAllViews` on the current state. */
    function Rendered(view: ViewType, current: Option<Picture>): Option<Picture>
      requires Valid()
      reads this
    {
      Shown(current, Render(view, SliceSlider(view).value, wlSlider.value, wwSlider.value))
    }

    /** Redraw all three views from the slider positions; nothing happens
        while no volume is loaded. */
    method UpdateAllViews()
      requires Valid()
      modifies this`axialPanel, this`coronalPanel, this`sagittalPanel
      ensures volumeData == [] ==> unchanged(this)
      ensures volumeData != [] ==>
        && axialPanel == Rendered(Axial, old(axialPanel))
        && coronalPanel == Rendered(Coronal, old(coronalPanel))
        && sagittalPanel == Rendered(Sagittal, old(sagittalPanel))
    {
      if volumeData == [] {
        return;
      }
      var curX, curY, curZ := sliderX.value, sliderY.value, sliderZ.value;
      var wl, ww := wlSlider.value, wwSlider.value;
      UpdateOneView(Axial, curZ, wl, ww);
      UpdateOneView(Coronal, curY, wl, ww);
      UpdateOneView(Sagittal, curX, wl, ww);
    }

    /** The mouse wheel over a panel moves that view's slice slider by one
        notch, clamped to its range, and redraws; nothing happens while no
        volume is loaded. */
    method OnPanelWheel(view: ViewType, direction: int)
      requires Valid()
      modifies this`sliderX, this`sliderY, this`sliderZ, this`axialPanel, this`coronalPanel, this`sagittalPanel
      ensures Valid()
      ensures old(volumeData) == [] ==> unchanged(this)
      ensures old(volumeData) != [] ==>
        var s := old(SliceSlider(view));
        && SliceSlider(view) == s.(value := WheelStep(s.value, direction, s.min, s.max))
        && (forall other :: other != view ==> SliceSlider(other) == old(SliceSlider(other)))
        && axialPanel == Rendered(Axial, old(axialPanel))
        && coronalPanel == Rendered(Coronal, old(coronalPanel))
        && sagittalPanel == Rendered(Sagittal, old(sagittalPanel))
    {
      if volumeData == [] {
        return;
      }
      match view {
        case Axial =>
          sliderZ := sliderZ.(value := WheelStep(sliderZ.value, direction, sliderZ.min, sliderZ.max));
        case Coronal =>
          sliderY := sliderY.(value := WheelStep(sliderY.value, direction, sliderY.min, sliderY.max));
        case Sagittal =>
          sliderX := sliderX.(value := WheelStep(sliderX.value, direction, sliderX.min, sliderX.max));
      }
      UpdateAllViews();
    }

    /** Reset puts each slice slider at half its maximum and the window back
        to level 40, width 400, and redraws; nothing happens while no
        volume is loaded. */
    method OnResetBtn()
      requires Valid()
      modifies this`sliderX, this`sliderY, this`sliderZ, this`wlSlider, this`wwSlider
      modifies this`axialPanel, this`coronalPanel, this`sagittalPanel
      ensures Valid()
      ensures old(volumeData) == [] ==> unchanged(this)
      ensures old(volumeData) != [] ==>
        && sliderX == old(sliderX).(value := old(sliderX.max) / 2)
        && sliderY == old(sliderY).(value := old(sliderY.max) / 2)
        && sliderZ == old(sliderZ).(value := old(sliderZ.max) / 2)
        && wlSlider.value == 40 && wwSlider.value == 400
        && axialPanel == Rendered(Axial, old(axialPanel))
        && coronalPanel == Rendered(Coronal, old(coronalPanel))
        && sagittalPanel == Rendered(Sagittal, old(sagittalPanel))
    {
      if volumeData == [] {
        return;
      }
      // the maxima are never negative, so `/` truncates as in C++
      sliderX := sliderX.(value := sliderX.max / 2);
      sliderY := sliderY.(value := sliderY.max / 2);
      sliderZ := sliderZ.(value := sliderZ.max / 2);
      wlSlider := wlSlider.(value := 40);
      wwSlider := wwSlider.(value := 400);
      UpdateAllViews();
    }

    /** The second pass over the chosen series' files: the first file that
        loads while no width is known sets the header members, and every
        loaded file whose image decodes at the current size is kept. */
    method ReadSlices(files: seq<WellFormedFile>, target: seq<nat>) returns (tempSlices: seq<SliceRaw>)
      requires Indices(files, target)
      modifies this`volWidth, this`volHeight, this`pxSpcX, this`pxSpcY, this`sliceThick, this`patientName, this`patientId
      ensures CurrentHeader() == Pass(files, target, old(CurrentHeader())).header
      ensures tempSlices == Pass(files, target, old(CurrentHeader())).slices
    {
      tempSlices := [];
      var i := 0;
      while i < |target|
        invariant 0 <= i <= |target|
        invariant CurrentHeader() == Pass(files, target[..i], old(CurrentHeader())).header
        invariant tempSlices == Pass(files, target[..i], old(CurrentHeader())).slices
      {
        var f := files[target[i]];
        if f.loadOk {
          if volWidth == 0 {
            volWidth, volHeight := f.columns, f.rows;
            if f.pixelSpacing.Some? {
              pxSpcY, pxSpcX := f.pixelSpacing.value.0, f.pixelSpacing.value.1;
            }
            sliceThick := f.sliceThickness;
            if f.patientName.Some? {
              patientName := f.patientName.value;
            }
            if f.patientId.Some? {
              patientId := f.patientId.value;
            }
          }
          if f.imageOk && f.imageWidth == volWidth && f.imageHeight == volHeight && f.pixels.Some? {
            var inst := 0;
            if f.instanceNumber.Some? {
              inst := f.instanceNumber.value;
            }
            tempSlices := tempSlices + [SliceRaw(inst, f.pixels.value)];
          }
        }
        assert target[..i + 1][..i] == target[..i];
        i := i + 1;
      }
      assert target[..i] == target;
    }

    /** The packing step of a load: `volDepth` and the volume buffer from
        the sorted slices. */
    method PackVolume(sorted: seq<SliceRaw>)
      requires volWidth >= 1 && volHeight >= 1 && sorted != []
      requires forall s :: s in sorted ==> |s.pixels| == volWidth * volHeight
      modifies this`volumeData, this`volDepth
      ensures volDepth == |sorted|
      ensures volumeData == Concat(PixelsOf(sorted)) != []
      ensures |volumeData| == volDepth * (volWidth * volHeight)
      ensures LaidOut(volumeData, sorted, volWidth, volHeight)
    {
      volDepth := |sorted|;
      volumeData := Pack(sorted);
      PackedLayout(sorted, volWidth, volHeight);
      PackedLength(sorted, volWidth, volHeight);
      assert LaidOutAt(volumeData, sorted, volWidth, volHeight, 0, 0, 0);
    }

    /** The slider step of a load: each slice slider gets the range of its
        axis with its value at the middle, then all views are redrawn. */
    method FitSliders()
      requires Valid()
      requires volWidth >= 1 && volHeight >= 1 && volDepth >= 1 && volumeData != []
      modifies this`sliderX, this`sliderY, this`sliderZ
      modifies this`axialPanel, this`coronalPanel, this`sagittalPanel
      ensures Valid()
      ensures sliderX == Slider(0, volWidth - 1, volWidth / 2)
      ensures sliderY == Slider(0, volHeight - 1, volHeight / 2)
      ensures sliderZ == Slider(0, volDepth - 1, volDepth / 2)
      ensures axialPanel == Rendered(Axial, old(axialPanel))
      ensures coronalPanel == Rendered(Coronal, old(coronalPanel))
      ensures sagittalPanel == Rendered(Sagittal, old(sagittalPanel))
    {
      sliderX := Slider(0, volWidth - 1, volWidth / 2);
      sliderY := Slider(0, volHeight - 1, volHeight / 2);
      sliderZ := Slider(0, volDepth - 1, volDepth / 2);
      UpdateAllViews();
    }

    /** The tail of a load once slices are kept: sort them, pack them into
        the volume, fit the slice sliders and redraw. */
    method InstallSlices(tempSlices: seq<SliceRaw>) returns (sorted: seq<SliceRaw>)
      requires Valid()
      requires volWidth >= 1 && volHeight >= 1 && tempSlices != []
      requires forall s :: s in tempSlices ==> |s.pixels| == volWidth * volHeight
      modifies this`volumeData, this`volDepth, this`sliderX, this`sliderY, this`sliderZ
      modifies this`axialPanel, this`coronalPanel, this`sagittalPanel
      ensures Valid()
      ensures multiset(sorted) == multiset(tempSlices) && SortedByInstance(sorted)
      ensures volDepth == |sorted| >= 1
      ensures volumeData == Concat(PixelsOf(sorted))
      ensures |volumeData| == volDepth * (volWidth * volHeight)
      ensures LaidOut(volumeData, sorted, volWidth, volHeight)
      ensures sliderX == Slider(0, volWidth - 1, volWidth / 2)
      ensures sliderY == Slider(0, volHeight - 1, volHeight / 2)
      ensures sliderZ == Slider(0, volDepth - 1, volDepth / 2)
      ensures axialPanel == Rendered(Axial, old(axialPanel))
      ensures coronalPanel == Rendered(Coronal, old(coronalPanel))
      ensures sagittalPanel == Rendered(Sagittal, old(sagittalPanel))
    {
      sorted := SortSlices(tempSlices);
      PermutationKeepsSizes(sorted, tempSlices, volWidth * volHeight);
      assert |sorted| == |multiset(sorted)| == |tempSlices|;
      PackVolume(sorted);
      FitSliders();
    }

    /** The load button once the folder is listed: group the files by
        series, pick the series with the most files, read it again, sort
        the kept slices by InstanceNumber, pack them into the volume, reset
        the slice sliders to the new ranges and redraw. Returns early when
        no file has a series UID, or when no slice of the chosen series is
        kept; in the second case the header members have already been
        overwritten. It also returns the chosen series and the sorted
        slices. */
    method OnLoadBtn(files: seq<WellFormedFile>) returns (outcome: LoadOutcome, bestUid: string, sorted: seq<SliceRaw>)
      requires Valid()
      modifies this`volumeData, this`volWidth, this`volHeight, this`volDepth
      modifies this`pxSpcX, this`pxSpcY, this`sliceThick, this`patientName, this`patientId
      modifies this`sliderX, this`sliderY, this`sliderZ
      modifies this`axialPanel, this`coronalPanel, this`sagittalPanel
      ensures Valid()
      ensures outcome == NoSeries <==> ScannedUids(files) == {}
      ensures outcome == NoSeries ==> unchanged(this)
      ensures outcome != NoSeries ==>
        && IsBest(SeriesMap(files), bestUid)
        && CurrentHeader() == LoadPass(files, bestUid, old(CurrentHeader())).header
        && (outcome == NoSlices <==> LoadPass(files, bestUid, old(CurrentHeader())).slices == [])
      ensures outcome != Loaded ==>
        && volumeData == old(volumeData) && volDepth == old(volDepth)
        && sliderX == old(sliderX) && sliderY == old(sliderY) && sliderZ == old(sliderZ)
        && axialPanel == old(axialPanel) && coronalPanel == old(coronalPanel) && sagittalPanel == old(sagittalPanel)
      ensures outcome == Loaded ==>
        && multiset(sorted) == multiset(LoadPass(files, bestUid, old(CurrentHeader())).slices)
        && SortedByInstance(sorted)
        && volWidth >= 1 && volHeight >= 1 && volDepth == |sorted| >= 1
        && volumeData == Concat(PixelsOf(sorted))
        && |volumeData| == volDepth * (volWidth * volHeight)
        && LaidOut(volumeData, sorted, volWidth, volHeight)
        && sliderX == Slider(0, volWidth - 1, volWidth / 2)
        && sliderY == Slider(0, volHeight - 1, volHeight / 2)
        && sliderZ == Slider(0, volDepth - 1, volDepth / 2)
        && axialPanel == Rendered(Axial, old(axialPanel))
        && coronalPanel == Rendered(Coronal, old(coronalPanel))
        && sagittalPanel == Rendered(Sagittal, old(sagittalPanel))
    {
      sorted := [];
      var found, target;
      found, bestUid, target := ChooseSeries(files);
      if !found {
        return NoSeries, bestUid, sorted;
      }
      ghost var prev := CurrentHeader();
      volWidth, volHeight := 0, 0;
      ghost var start := CurrentHeader();
      assert start == prev.(width := 0, height := 0);
      var tempSlices := ReadSlices(files, target);
      ghost var st := LoadPass(files, bestUid, prev);
      assert st == Pass(files, target, start);
      assert CurrentHeader() == st.header && tempSlices == st.slices;
      if tempSlices == [] {
        return NoSlices, bestUid, sorted;
      }
      RetainedHaveCanonicalSize(files, target, start);
      sorted := InstallSlices(tempSlices);
      outcome := Loaded;
    }
  }
}
