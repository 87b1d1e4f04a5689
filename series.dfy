/** The decoded input and the first pass of `MainFrame::OnLoadBtn`: every
    file that loads and carries a SeriesInstanceUID is appended to its
    series in a `std::map<std::string, std::vector<...>>`, and the series
    with the strictly largest count wins while the map is walked in key
    order, so a tie goes to the lexicographically smallest UID. */
module Series {
  import opened Basics

  /** What the DICOM decoder reports about one file of the folder. The
      viewer reads every file twice (once to group, once to load pixels);
      the two reads are reported separately.
      - `scanOk`: the first-pass `loadFile` succeeded;
      - `seriesUid`: SeriesInstanceUID, when present;
      - `loadOk`: the second-pass `loadFile` succeeded;
      - `rows`, `columns`: the Rows and Columns values read into the
        `Uint16` variables (0 when the decoder finds none);
      - `pixelSpacing`: PixelSpacing as (row spacing, column spacing), when present;
      - `sliceThickness`: the value the decoder leaves in `sliceThick`;
      - `patientName`, `patientId`: when present;
      - `imageOk`, `imageWidth`, `imageHeight`: the `DicomImage` status is
        normal, and its size;
      - `pixels`: the 16-bit output buffer, when the image yields one;
      - `instanceNumber`: InstanceNumber, when present. */
  datatype DicomFile = DicomFile(
    scanOk: bool,
    seriesUid: Option<string>,
    loadOk: bool,
    rows: U16,
    columns: U16,
    pixelSpacing: Option<(real, real)>,
    sliceThickness: real,
    patientName: Option<string>,
    patientId: Option<string>,
    imageOk: bool,
    imageWidth: nat,
    imageHeight: nat,
    pixels: Option<seq<Sample>>,
    instanceNumber: Option<Int32>)
  {
    /** What the decoder guarantees: a normal image has the size its
        Rows/Columns state, which is at least 1x1, and its output buffer
        holds one sample per pixel. */
    predicate WellFormed()
    {
      && (imageOk ==> imageWidth == columns >= 1 && imageHeight == rows >= 1)
      && (pixels.Some? ==> |pixels.value| == imageWidth * imageHeight)
    }
  }

  type WellFormedFile = f: DicomFile | f.WellFormed()
    witness DicomFile(false, None, false, 0, 0, None, 0.0, None, None, false, 0, 0, None, None)

  /** The file joins series `uid` in the first pass. */
  predicate InSeries(f: DicomFile, uid: string)
  {
    f.scanOk && f.seriesUid == Some(uid)
  }

  /** The indices of the files of series `uid`, in folder order. */
  function Members(files: seq<DicomFile>, uid: string): seq<nat>
  {
    if files == [] then []
    else
      var k := |files| - 1;
      Members(files[..k], uid) + if InSeries(files[k], uid) then [k] else []
  }

  /** The UIDs of all files that load in the first pass. */
  function ScannedUids(files: seq<DicomFile>): set<string>
  {
    set i | 0 <= i < |files| && files[i].scanOk && files[i].seriesUid.Some? :: files[i].seriesUid.value
  }

  /** The `seriesMap` the first pass builds. */
  function SeriesMap(files: seq<DicomFile>): map<string, seq<nat>>
  {
    map uid | uid in ScannedUids(files) :: Members(files, uid)
  }

  /** `Members` lists exactly the files of the series, each once, in
      increasing folder order. */
  lemma {:induction false} MembersSpec(files: seq<DicomFile>, uid: string)
    ensures forall i :: i in Members(files, uid) <==> 0 <= i < |files| && InSeries(files[i], uid)
    ensures forall p, q :: 0 <= p < q < |Members(files, uid)| ==> Members(files, uid)[p] < Members(files, uid)[q]
  {
    if files != [] {
      var k := |files| - 1;
      var m := Members(files[..k], uid);
      MembersSpec(files[..k], uid);
      var r := Members(files, uid);
      assert r == m + if InSeries(files[k], uid) then [k] else [];
      forall p, q | 0 <= p < q < |r|
        ensures r[p] < r[q]
      {
        if q < |m| {
          assert r[p] == m[p] && r[q] == m[q];
        } else {
          assert r[p] == m[p] && m[p] in m;
        }
      }
    }
  }

  lemma {:induction false} MembersOfUnscanned(files: seq<DicomFile>, uid: string)
    requires uid !in ScannedUids(files)
    ensures Members(files, uid) == []
  {
    if files != [] {
      var k := |files| - 1;
      assert ScannedUids(files[..k]) <= ScannedUids(files);
      MembersOfUnscanned(files[..k], uid);
    }
  }

  /** Every series in the map is non-empty and all its indices are files
      of the folder. */
  lemma SeriesMapSpec(files: seq<DicomFile>)
    ensures SeriesMap(files).Keys == ScannedUids(files)
    ensures forall uid :: uid in SeriesMap(files) ==> |SeriesMap(files)[uid]| > 0
    ensures forall uid, i :: uid in SeriesMap(files) && i in SeriesMap(files)[uid] ==> i < |files| && InSeries(files[i], uid)
  {
    forall uid | uid in SeriesMap(files)
      ensures |SeriesMap(files)[uid]| > 0
      ensures forall i :: i in SeriesMap(files)[uid] ==> i < |files| && InSeries(files[i], uid)
    {
      MembersSpec(files, uid);
      var i :| 0 <= i < |files| && files[i].scanOk && files[i].seriesUid == Some(uid);
      assert i in Members(files, uid);
    }
  }

  /** One more file extends the map the way `seriesMap[uid].push_back`
      does: a missing key starts from an empty list. */
  lemma SeriesMapStep(files: seq<DicomFile>)
    requires files != []
    ensures
      var k := |files| - 1;
      var m, f := SeriesMap(files[..k]), files[k];
      SeriesMap(files) ==
        if f.scanOk && f.seriesUid.Some? then
          m[f.seriesUid.value := (if f.seriesUid.value in m then m[f.seriesUid.value] else []) + [k]]
        else m
  {
    var k := |files| - 1;
    var f := files[k];
    if f.scanOk && f.seriesUid.Some? {
      SeriesMapPush(files);
    } else {
      SeriesMapSkip(files);
    }
  }

  /** A last file with a series UID is appended to that UID's list. */
  lemma SeriesMapPush(files: seq<DicomFile>)
    requires files != []
    requires files[|files| - 1].scanOk && files[|files| - 1].seriesUid.Some?
    ensures
      var k := |files| - 1;
      var m, uid := SeriesMap(files[..k]), files[k].seriesUid.value;
      SeriesMap(files) == m[uid := (if uid in m then m[uid] else []) + [k]]
  {
    var k := |files| - 1;
    var prev, f := files[..k], files[k];
    var m := SeriesMap(prev);
    var uid := f.seriesUid.value;
    assert forall u :: Members(files, u) == Members(prev, u) + if InSeries(f, u) then [k] else [];
    assert ScannedUids(files) == ScannedUids(prev) + {uid};
    if uid !in m {
      MembersOfUnscanned(prev, uid);
    }
    var m' := m[uid := (if uid in m then m[uid] else []) + [k]];
    forall u | u in ScannedUids(files)
      ensures m'[u] == Members(files, u)
    {
      if u != uid {
        assert !InSeries(f, u);
      }
    }
  }

  /** A last file without a series UID leaves the map as it was. */
  lemma SeriesMapSkip(files: seq<DicomFile>)
    requires files != []
    requires !(files[|files| - 1].scanOk && files[|files| - 1].seriesUid.Some?)
    ensures SeriesMap(files) == SeriesMap(files[..|files| - 1])
  {
    var k := |files| - 1;
    var prev, f := files[..k], files[k];
    var m := SeriesMap(prev);
    assert forall u :: Members(files, u) == Members(prev, u) + if InSeries(f, u) then [k] else [];
    assert ScannedUids(files) == ScannedUids(prev);
    forall u | u in ScannedUids(files)
      ensures m[u] == Members(files, u)
    {
      assert !InSeries(f, u);
    }
  }

  /** The grouping loop: `if (uid) seriesMap[uid].push_back(file)` for
      every file that loads. */
  method GroupBySeries(files: seq<DicomFile>) returns (seriesMap: map<string, seq<nat>>)
    ensures seriesMap == SeriesMap(files)
  {
    seriesMap := map[];
    var i := 0;
    while i < |files|
      invariant 0 <= i <= |files|
      invariant seriesMap == SeriesMap(files[..i])
    {
      var f := files[i];
      SeriesMapStep(files[..i + 1]);
      assert files[..i + 1][..i] == files[..i];
      if f.scanOk && f.seriesUid.Some? {
        var uid := f.seriesUid.value;
        var list := if uid in seriesMap then seriesMap[uid] else [];
        seriesMap := seriesMap[uid := list + [i]];
      }
      i := i + 1;
    }
    assert files[..i] == files;
  }

  /** `std::string` order: lexicographic on characters, a proper prefix
      sorting first. */
  predicate StrLess(a: string, b: string)
  {
    if a == [] then b != []
    else if b == [] then false
    else if a[0] != b[0] then a[0] < b[0]
    else StrLess(a[1..], b[1..])
  }

  lemma {:induction false} StrLessIrreflexive(a: string)
    ensures !StrLess(a, a)
  {
    if a != [] {
      StrLessIrreflexive(a[1..]);
    }
  }

  lemma {:induction false} StrLessTransitive(a: string, b: string, c: string)
    requires StrLess(a, b) && StrLess(b, c)
    ensures StrLess(a, c)
  {
    if a != [] && a[0] == b[0] && b[0] == c[0] {
      StrLessTransitive(a[1..], b[1..], c[1..]);
    }
  }

  lemma {:induction false} StrLessTotal(a: string, b: string)
    requires a != b
    ensures StrLess(a, b) || StrLess(b, a)
  {
    if a != [] && b != [] && a[0] == b[0] {
      assert a == [a[0]] + a[1..] && b == [b[0]] + b[1..];
      StrLessTotal(a[1..], b[1..]);
    }
  }

  /** Every non-empty finite set of strings has a least element. */
  lemma {:induction false} LeastExists(s: set<string>)
    requires s != {}
    ensures exists m :: m in s && forall k :: k in s ==> !StrLess(k, m)
  {
    var x :| x in s;
    if s == {x} {
      StrLessIrreflexive(x);
    } else {
      LeastExists(s - {x});
      var m :| m in s - {x} && forall k :: k in s - {x} ==> !StrLess(k, m);
      if StrLess(x, m) {
        forall k | k in s
          ensures !StrLess(k, x)
        {
          if k == x {
            StrLessIrreflexive(x);
          } else if StrLess(k, x) {
            StrLessTransitive(k, x, m);
          }
        }
      } else {
        assert forall k :: k in s ==> !StrLess(k, m);
      }
    }
  }

  /** `uid` is the series the selection loop settles on: its count is not
      exceeded by any other series, and every series with the same count
      has a UID that is not smaller. */
  predicate IsBest(seriesMap: map<string, seq<nat>>, uid: string)
  {
    && uid in seriesMap
    && (forall k :: k in seriesMap ==> |seriesMap[k]| <= |seriesMap[uid]|)
    && (forall k :: k in seriesMap && |seriesMap[k]| == |seriesMap[uid]| ==> !StrLess(k, uid))
  }

  /** The choice is deterministic: at most one UID is best. */
  lemma BestIsUnique(seriesMap: map<string, seq<nat>>, u: string, v: string)
    requires IsBest(seriesMap, u) && IsBest(seriesMap, v)
    ensures u == v
  {
    if u != v {
      StrLessTotal(u, v);
    }
  }

  /** The selection loop: walk the keys in increasing order and keep the
      first strictly larger count. */
  method SelectBest(seriesMap: map<string, seq<nat>>) returns (bestUid: string)
    requires seriesMap != map[]
    requires forall k :: k in seriesMap ==> |seriesMap[k]| > 0
    ensures IsBest(seriesMap, bestUid)
  {
    var remaining := seriesMap.Keys;
    var maxCount := 0;
    bestUid := "";
    while remaining != {}
      invariant remaining <= seriesMap.Keys
      invariant forall d, r :: d in seriesMap.Keys - remaining && r in remaining ==> StrLess(d, r)
      invariant remaining == seriesMap.Keys <==> maxCount == 0
      invariant remaining != seriesMap.Keys ==>
        bestUid in seriesMap.Keys - remaining && |seriesMap[bestUid]| == maxCount
      invariant forall d :: d in seriesMap.Keys - remaining ==> |seriesMap[d]| <= maxCount
      invariant forall d :: d in seriesMap.Keys - remaining && |seriesMap[d]| == maxCount ==> !StrLess(d, bestUid)
      decreases remaining
    {
      LeastExists(remaining);
      var uid :| uid in remaining && forall k :: k in remaining ==> !StrLess(k, uid);
      forall r | r in remaining - {uid}
        ensures StrLess(uid, r)
      {
        StrLessTotal(uid, r);
      }
      if |seriesMap[uid]| > maxCount {
        maxCount := |seriesMap[uid]|;
        bestUid := uid;
        forall d | d in seriesMap.Keys - remaining
          ensures !StrLess(d, bestUid) || |seriesMap[d]| < maxCount
        {
        }
      } else {
        forall d | d in seriesMap.Keys - remaining && |seriesMap[d]| == maxCount
          ensures !StrLess(d, bestUid)
        {
        }
        if |seriesMap[uid]| == maxCount {
          assert StrLess(bestUid, uid);
          if StrLess(uid, bestUid) {
            StrLessTransitive(uid, bestUid, uid);
            StrLessIrreflexive(uid);
          }
        }
      }
      remaining := remaining - {uid};
    }
  }
}
