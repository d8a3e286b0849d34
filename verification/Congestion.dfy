/** Counting detected people per zone, and the zone list itself. */
module Congestion {
  import opened Wrappers

  /** A detected object, in fractions of the picture. */
  datatype Object = Object(x: real, y: real, w: real, h: real)

  datatype Zone = Zone(id: int, camera: string, x1: real, y1: real, x2: real, y2: real)

  /** The objects currently seen by one camera. */
  datatype Camera = Camera(name: string, objects: seq<Object>)

  const CONGESTION_EASY_MAX := 1
  const CONGESTION_NORMAL_MAX := 2
  const HANWHA := "hanwha"

  function CenterX(o: Object): real { o.x + o.w / 2.0 }

  function CenterY(o: Object): real { o.y + o.h / 2.0 }

  predicate IsInside(o: Object, z: Zone) {
    z.x1 <= CenterX(o) <= z.x2 && z.y1 <= CenterY(o) <= z.y2
  }

  function CalculateLevel(count: int): int {
    if count < CONGESTION_EASY_MAX then 0 else if count < CONGESTION_NORMAL_MAX then 1 else 2
  }

  // ---- What is counted ----

  predicate Matches(camera: string, o: Object, z: Zone, id: int) {
    z.id == id && z.camera == camera && IsInside(o, z)
  }

  /** The matching (camera, object, zone entry) triples, as positions in the three lists. */
  function Pairs(cameras: seq<Camera>, zones: seq<Zone>, id: int): set<(nat, (nat, nat))> {
    set c: nat, p: (nat, nat) | c < |cameras| && p in ObjectPairs(cameras[c].name, cameras[c].objects, zones, id) :: (c, p)
  }

  function ObjectPairs(camera: string, objects: seq<Object>, zones: seq<Zone>, id: int): set<(nat, nat)> {
    set o: nat, i: nat | o < |objects| && i in Hits(camera, objects[o], zones, id) :: (o, i)
  }

  function Hits(camera: string, o: Object, zones: seq<Zone>, id: int): set<nat> {
    set i: nat | i < |zones| && Matches(camera, o, zones[i], id)
  }

  function CountZones(camera: string, o: Object, zones: seq<Zone>, id: int): nat {
    if zones == [] then 0
    else
      var n := |zones| - 1;
      CountZones(camera, o, zones[..n], id) + (if Matches(camera, o, zones[n], id) then 1 else 0)
  }

  function CountObjects(camera: string, objects: seq<Object>, zones: seq<Zone>, id: int): nat {
    if objects == [] then 0
    else
      var n := |objects| - 1;
      CountObjects(camera, objects[..n], zones, id) + CountZones(camera, objects[n], zones, id)
  }

  function CountCameras(cameras: seq<Camera>, zones: seq<Zone>, id: int): nat {
    if cameras == [] then 0
    else
      var n := |cameras| - 1;
      CountCameras(cameras[..n], zones, id) + CountObjects(cameras[n].name, cameras[n].objects, zones, id)
  }

  function Tagged<T>(n: nat, s: set<T>): set<(nat, T)> {
    set x | x in s :: (n, x)
  }

  lemma {:induction false} TaggedSize<T>(n: nat, s: set<T>)
    ensures |Tagged(n, s)| == |s|
  {
    if s != {} {
      var x :| x in s;
      TaggedSize(n, s - {x});
      assert Tagged(n, s) == Tagged(n, s - {x}) + {(n, x)};
    }
  }

  lemma {:induction false} CountZonesIsExact(camera: string, o: Object, zones: seq<Zone>, id: int)
    ensures CountZones(camera, o, zones, id) == |Hits(camera, o, zones, id)|
    decreases |zones|
  {
    if zones != [] {
      var n := |zones| - 1;
      CountZonesIsExact(camera, o, zones[..n], id);
      var before := Hits(camera, o, zones[..n], id);
      assert Hits(camera, o, zones, id) == before + (if Matches(camera, o, zones[n], id) then {n} else {});
    }
  }

  lemma {:induction false} CountObjectsIsExact(camera: string, objects: seq<Object>, zones: seq<Zone>, id: int)
    ensures CountObjects(camera, objects, zones, id) == |ObjectPairs(camera, objects, zones, id)|
    decreases |objects|
  {
    hide Matches, Hits;
    if objects != [] {
      var n := |objects| - 1;
      CountObjectsIsExact(camera, objects[..n], zones, id);
      CountZonesIsExact(camera, objects[n], zones, id);
      var before, last := ObjectPairs(camera, objects[..n], zones, id), Tagged(n, Hits(camera, objects[n], zones, id));
      TaggedSize(n, Hits(camera, objects[n], zones, id));
      assert ObjectPairs(camera, objects, zones, id) == before + last;
      assert before !! last;
    }
  }

  /** The count is the exact number of matching (object, zone entry) pairs over all cameras. */
  lemma {:induction false} CountIsExact(cameras: seq<Camera>, zones: seq<Zone>, id: int)
    ensures CountCameras(cameras, zones, id) == |Pairs(cameras, zones, id)|
    decreases |cameras|
  {
    hide Matches, ObjectPairs;
    if cameras != [] {
      var n := |cameras| - 1;
      var k := cameras[n];
      CountIsExact(cameras[..n], zones, id);
      CountObjectsIsExact(k.name, k.objects, zones, id);
      var before, last := Pairs(cameras[..n], zones, id), Tagged(n, ObjectPairs(k.name, k.objects, zones, id));
      TaggedSize(n, ObjectPairs(k.name, k.objects, zones, id));
      assert Pairs(cameras, zones, id) == before + last;
      assert before !! last;
    }
  }

  /**
   What is counted, in the coordinates themselves: an object whose centre is within the borders of a
   zone entry of its camera, borders included; and what the levels mean.
   */
  lemma PairsIff(cameras: seq<Camera>, zones: seq<Zone>, id: int, c: nat, o: nat, i: nat)
    ensures (c, (o, i)) in Pairs(cameras, zones, id) <==>
      && c < |cameras| && o < |cameras[c].objects| && i < |zones|
      && zones[i].id == id && zones[i].camera == cameras[c].name
      && var seen, zone := cameras[c].objects[o], zones[i];
         && 2.0 * zone.x1 <= 2.0 * seen.x + seen.w <= 2.0 * zone.x2
         && 2.0 * zone.y1 <= 2.0 * seen.y + seen.h <= 2.0 * zone.y2
  {
    if c < |cameras| && o < |cameras[c].objects| && i < |zones| {
      var k := cameras[c];
      assert i in Hits(k.name, k.objects[o], zones, id) <==> Matches(k.name, k.objects[o], zones[i], id);
      assert (o, i) in ObjectPairs(k.name, k.objects, zones, id) <==> i in Hits(k.name, k.objects[o], zones, id);
      CentredInside(k.objects[o], zones[i]);
    }
  }

  lemma CentredInside(seen: Object, zone: Zone)
    ensures IsInside(seen, zone) <==>
      && 2.0 * zone.x1 <= 2.0 * seen.x + seen.w <= 2.0 * zone.x2
      && 2.0 * zone.y1 <= 2.0 * seen.y + seen.h <= 2.0 * zone.y2
  {
    assert 2.0 * CenterX(seen) == 2.0 * seen.x + seen.w;
    assert 2.0 * CenterY(seen) == 2.0 * seen.y + seen.h;
  }

  // ---- The analyzer ----

  /** The counters hold `base` plus what `add` says, zone by zone. */
  ghost predicate Counted(counts: seq<int>, base: seq<int>, add: int -> nat) {
    |counts| == 8 && |base| == 8 && forall k :: 0 <= k < 8 ==> counts[k] == base[k] + add(k + 1)
  }

  method CountObject(counts: array<int>, camera: string, o: Object, zones: seq<Zone>)
    requires counts.Length == 8
    modifies counts
    ensures Counted(counts[..], old(counts[..]), id => CountZones(camera, o, zones, id))
  {
    for i := 0 to |zones|
      invariant Counted(counts[..], old(counts[..]), id => CountZones(camera, o, zones[..i], id))
    {
      var zone := zones[i];
      assert zones[..i + 1][..i] == zones[..i];
      if zone.camera == camera && IsInside(o, zone) {
        if 1 <= zone.id <= 8 {
          counts[zone.id - 1] := counts[zone.id - 1] + 1;
        }
      }
    }
    assert zones[..|zones|] == zones;
  }

  method CountCamera(counts: array<int>, camera: Camera, zones: seq<Zone>)
    requires counts.Length == 8
    modifies counts
    ensures Counted(counts[..], old(counts[..]), id => CountObjects(camera.name, camera.objects, zones, id))
  {
    for i := 0 to |camera.objects|
      invariant Counted(counts[..], old(counts[..]), id => CountObjects(camera.name, camera.objects[..i], zones, id))
    {
      assert camera.objects[..i + 1][..i] == camera.objects[..i];
      CountObject(counts, camera.name, camera.objects[i], zones);
    }
    assert camera.objects[..|camera.objects|] == camera.objects;
  }

  lemma FirstCamera(cameras: seq<Camera>, zones: seq<Zone>, id: int)
    requires cameras != []
    ensures CountCameras(cameras[..1], zones, id) == CountObjects(cameras[0].name, cameras[0].objects, zones, id)
  {
    assert cameras[..1][..0] == [] && cameras[..1][0] == cameras[0];
  }

  lemma OneMoreCamera(cameras: seq<Camera>, zones: seq<Zone>, id: int, n: nat)
    requires n < |cameras|
    ensures CountCameras(cameras[..n + 1], zones, id) ==
      CountCameras(cameras[..n], zones, id) + CountObjects(cameras[n].name, cameras[n].objects, zones, id)
  {
    assert cameras[..n + 1][..n] == cameras[..n];
  }

  /** The counting part of one round: the Hanwha objects first, then every Pi node. */
  method CountRound(zones: seq<Zone>, hanwhaObjects: seq<Object>, nodes: seq<Camera>) returns (counts: seq<int>)
    ensures |counts| == 8
    ensures var cameras := [Camera(HANWHA, hanwhaObjects)] + nodes;
      forall k :: 0 <= k < 8 ==> counts[k] == |Pairs(cameras, zones, k + 1)|
  {
    hide CountObjects, CountCameras, Pairs;
    var tempCounts := new int[8](_ => 0);
    ghost var cameras := [Camera(HANWHA, hanwhaObjects)] + nodes;
    CountCamera(tempCounts, Camera(HANWHA, hanwhaObjects), zones);
    forall k | 0 <= k < 8
      ensures tempCounts[k] == CountCameras(cameras[..1], zones, k + 1)
    {
      FirstCamera(cameras, zones, k + 1);
    }
    for i := 0 to |nodes|
      invariant forall k :: 0 <= k < 8 ==> tempCounts[k] == CountCameras(cameras[..i + 1], zones, k + 1)
    {
      assert cameras[i + 1] == nodes[i];
      CountCamera(tempCounts, nodes[i], zones);
      forall k | 0 <= k < 8
        ensures tempCounts[k] == CountCameras(cameras[..i + 2], zones, k + 1)
      {
        OneMoreCamera(cameras, zones, k + 1, i + 1);
      }
    }
    assert cameras[..|nodes| + 1] == cameras;
    counts := tempCounts[..];
    forall k | 0 <= k < 8
      ensures counts[k] == |Pairs(cameras, zones, k + 1)|
    {
      CountIsExact(cameras, zones, k + 1);
    }
  }

  class CongestionAnalyzer {
    var zones: seq<Zone>
    var currentLevels: seq<int>
    var currentCounts: seq<int>

    /** Levels are always those of the counts stored beside them. */
    ghost predicate Valid()
      reads this
    {
      |currentCounts| == 8 && |currentLevels| == 8
      && forall i :: 0 <= i < 8 ==> currentLevels[i] == CalculateLevel(currentCounts[i])
    }

    constructor ()
      ensures Valid() && currentCounts == [0, 0, 0, 0, 0, 0, 0, 0] && zones == []
    {
      currentLevels, currentCounts, zones := [0, 0, 0, 0, 0, 0, 0, 0], [0, 0, 0, 0, 0, 0, 0, 0], [];
    }

    /** Takes over the zones of the configuration file. */
    method LoadConfig(file: Option<seq<Zone>>)
      modifies `zones
      ensures zones == Entries(file)
    {
      zones := [];
      if file.Some? {
        for i := 0 to |file.value|
          invariant zones == file.value[..i]
        {
          zones := zones + [file.value[i]];
        }
      }
    }

    /** One round of the analyzer thread. */
    method Round(hanwhaObjects: seq<Object>, nodes: seq<Camera>)
      requires Valid()
      modifies this
      ensures Valid() && zones == old(zones)
      ensures var cameras := [Camera(HANWHA, hanwhaObjects)] + nodes;
        forall k :: 0 <= k < 8 ==> currentCounts[k] == |Pairs(cameras, zones, k + 1)|
      ensures forall k :: 0 <= k < 8 ==> currentLevels[k] == if currentCounts[k] == 0 then 0 else if currentCounts[k] == 1 then 1 else 2
    {
      hide Pairs;
      var tempCounts := CountRound(zones, hanwhaObjects, nodes);
      for i := 0 to 8
        invariant Valid() && zones == old(zones)
        invariant currentCounts[..i] == tempCounts[..i]
      {
        currentCounts := currentCounts[i := tempCounts[i]];
        currentLevels := currentLevels[i := CalculateLevel(tempCounts[i])];
      }
      assert currentCounts == currentCounts[..8] == tempCounts[..8] == tempCounts;
    }
  }

  // ---- The default zones ----

  const DEFAULT_ZONES: seq<Zone> := [
    Zone(1, "hanwha", 0.0, 0.0, 0.25, 1.0),
    Zone(2, "hanwha", 0.25, 0.0, 0.5, 1.0),
    Zone(3, "hanwha", 0.5, 0.0, 0.75, 1.0),
    Zone(4, "hanwha", 0.75, 0.0, 1.0, 1.0),
    Zone(5, "CAM_01", 0.0, 0.0, 0.5, 1.0),
    Zone(6, "CAM_01", 0.5, 0.0, 1.0, 1.0),
    Zone(7, "CAM_02", 0.0, 0.0, 0.5, 1.0),
    Zone(8, "CAM_02", 0.5, 0.0, 1.0, 1.0)]

  /** With zone entries numbered in order, an object counts at most once per zone. */
  lemma {:induction false} NumberedZonesCount(camera: string, o: Object, zones: seq<Zone>, id: int)
    requires forall i :: 0 <= i < |zones| ==> zones[i].id == i + 1
    ensures CountZones(camera, o, zones, id) ==
      if 1 <= id <= |zones| && Matches(camera, o, zones[id - 1], id) then 1 else 0
    decreases |zones|
  {
    if zones != [] {
      NumberedZonesCount(camera, o, zones[..|zones| - 1], id);
    }
  }

  function DefaultCount(camera: string, o: Object, id: int): nat {
    CountZones(camera, o, DEFAULT_ZONES, id)
  }

  lemma DefaultZoneCount(camera: string, o: Object, id: int)
    requires 1 <= id <= 8
    ensures DefaultCount(camera, o, id) ==
      if DEFAULT_ZONES[id - 1].camera == camera && IsInside(o, DEFAULT_ZONES[id - 1]) then 1 else 0
  {
    NumberedZonesCount(camera, o, DEFAULT_ZONES, id);
  }

  lemma CamerasDiffer()
    ensures "hanwha" != "CAM_01" && "hanwha" != "CAM_02" && "CAM_01" != "CAM_02"
  {
    assert "hanwha"[0] != "CAM_01"[0] && "hanwha"[0] != "CAM_02"[0] && "CAM_01"[5] != "CAM_02"[5];
  }

  /**
   With the default zones an object of a configured camera, centred in the unit square, is counted
   once, or twice exactly if its centre lies on a line between two zones.
   */
  lemma DefaultZonesCoverOnceOrTwice(camera: string, o: Object)
    requires camera == "hanwha" || camera == "CAM_01" || camera == "CAM_02"
    requires 0.0 <= CenterX(o) <= 1.0 && 0.0 <= CenterY(o) <= 1.0
    ensures var total := DefaultCount(camera, o, 1) + DefaultCount(camera, o, 2) + DefaultCount(camera, o, 3)
        + DefaultCount(camera, o, 4) + DefaultCount(camera, o, 5) + DefaultCount(camera, o, 6)
        + DefaultCount(camera, o, 7) + DefaultCount(camera, o, 8);
      var x := CenterX(o);
      var between := if camera == "hanwha" then x == 0.25 || x == 0.5 || x == 0.75 else x == 0.5;
      total == if between then 2 else 1
  {
    hide DefaultCount;
    CamerasDiffer();
    forall id | 1 <= id <= 8
      ensures DefaultCount(camera, o, id) ==
        if DEFAULT_ZONES[id - 1].camera == camera && IsInside(o, DEFAULT_ZONES[id - 1]) then 1 else 0
    {
      DefaultZoneCount(camera, o, id);
    }
  }

  // ---- Editing the zone list ----

  datatype Roi = Roi(x1: real, y1: real, x2: real, y2: real)

  predicate SameZone(z: Zone, camera: string, id: int) {
    z.id == id && z.camera == camera
  }

  function WithRoi(z: Zone, r: Roi): Zone {
    z.(x1 := r.x1, y1 := r.y1, x2 := r.x2, y2 := r.y2)
  }

  /** The first entry for a camera and zone id, the one an update edits. */
  ghost predicate FirstEntry(zones: seq<Zone>, camera: string, id: int, i: nat) {
    i < |zones| && SameZone(zones[i], camera, id) && forall j :: 0 <= j < i ==> !SameZone(zones[j], camera, id)
  }

  /** The zones array of the configuration file; None if it has none. */
  function Entries(file: Option<seq<Zone>>): seq<Zone> {
    if file.Some? then file.value else []
  }

  /** `after` is `before` with the ROI of the first matching entry replaced, or with an entry added if none matches. */
  ghost predicate Edited(before: seq<Zone>, after: seq<Zone>, camera: string, id: int, r: Roi) {
    && ((forall j :: 0 <= j < |before| ==> !SameZone(before[j], camera, id)) ==>
      after == before + [Zone(id, camera, r.x1, r.y1, r.x2, r.y2)])
    && forall i: nat :: FirstEntry(before, camera, id, i) ==> after == before[i := WithRoi(before[i], r)]
  }

  /** The loop over the entries, and the entry pushed behind them if it finds none. */
  method EditZones(zones: seq<Zone>, camera: string, id: int, r: Roi) returns (updated: seq<Zone>)
    ensures Edited(zones, updated, camera, id, r)
  {
    updated := zones;
    for i := 0 to |zones|
      invariant updated == zones
      invariant forall j :: 0 <= j < i ==> !SameZone(zones[j], camera, id)
    {
      if zones[i].id == id && zones[i].camera == camera {
        updated := updated[i := WithRoi(zones[i], r)];
        return;
      }
    }
    updated := updated + [Zone(id, camera, r.x1, r.y1, r.x2, r.y2)];
  }

  lemma EditedHasZone(before: seq<Zone>, after: seq<Zone>, camera: string, id: int, r: Roi)
    requires Edited(before, after, camera, id, r)
    ensures exists z :: z in after && z.id == id && z.camera == camera && z.x1 == r.x1 && z.y1 == r.y1 && z.x2 == r.x2 && z.y2 == r.y2
  {
    if exists j :: 0 <= j < |before| && SameZone(before[j], camera, id) {
      var i := FirstEntryExists(before, camera, id);
      assert after[i] in after;
    } else {
      assert after[|before|] in after;
    }
  }

  class Configuration {
    const analyzer: CongestionAnalyzer
    var file: Option<seq<Zone>>
    var roiUpdated: bool

    constructor (analyzer: CongestionAnalyzer, file: Option<seq<Zone>>)
      ensures this.analyzer == analyzer && this.file == file && !roiUpdated
    {
      this.analyzer, this.file, roiUpdated := analyzer, file, false;
    }

    /** An ROI update: refused, or edited, saved and loaded into the analyzer, whose counts stay. */
    method UpdateRoi(camera: string, id: int, roi: seq<real>) returns (accepted: bool)
      requires analyzer.Valid()
      modifies this, analyzer
      ensures analyzer.Valid() && analyzer.currentCounts == old(analyzer.currentCounts)
      ensures accepted <==> camera != "" && id != -1 && |roi| == 4
      ensures !accepted ==> file == old(file) && analyzer.zones == old(analyzer.zones) && roiUpdated == old(roiUpdated)
      ensures accepted ==> roiUpdated && file == Some(analyzer.zones)
      ensures accepted ==> Edited(Entries(old(file)), analyzer.zones, camera, id, Roi(roi[0], roi[1], roi[2], roi[3]))
      ensures accepted ==> exists z :: (z in analyzer.zones && z.id == id && z.camera == camera
        && z.x1 == roi[0] && z.y1 == roi[1] && z.x2 == roi[2] && z.y2 == roi[3])
    {
      accepted := camera != "" && id != -1 && |roi| == 4;
      if !accepted { return; }
      var zones := if file.Some? then file.value else [];
      ghost var before := zones;
      zones := EditZones(zones, camera, id, Roi(roi[0], roi[1], roi[2], roi[3]));
      EditedHasZone(before, zones, camera, id, Roi(roi[0], roi[1], roi[2], roi[3]));
      file := Some(zones);
      analyzer.LoadConfig(file);
      roiUpdated := true;
    }
  }

  lemma FirstEntryExists(zones: seq<Zone>, camera: string, id: int) returns (i: nat)
    requires exists j :: 0 <= j < |zones| && SameZone(zones[j], camera, id)
    ensures FirstEntry(zones, camera, id, i)
  {
    i := 0;
    while !SameZone(zones[i], camera, id)
      invariant i < |zones| && forall j :: 0 <= j < i ==> !SameZone(zones[j], camera, id)
      decreases |zones| - i
    {
      i := i + 1;
    }
  }

  /**
   An update leaves the entries of all other zones as they are and where they are, adds an entry only
   if its zone had none, and is forgotten when the same zone is updated again.
   */
  lemma LastUpdateWins(a: seq<Zone>, b: seq<Zone>, c: seq<Zone>, camera: string, id: int, r: Roi, last: Roi)
    requires Edited(a, b, camera, id, r) && Edited(b, c, camera, id, last)
    ensures Edited(a, c, camera, id, last)
    ensures |a| <= |b| && forall j :: 0 <= j < |a| && !SameZone(a[j], camera, id) ==> b[j] == a[j]
    ensures |b| == |a| + (if exists j :: 0 <= j < |a| && SameZone(a[j], camera, id) then 0 else 1)
  {
    if exists j :: 0 <= j < |a| && SameZone(a[j], camera, id) {
      var i := FirstEntryExists(a, camera, id);
      assert FirstEntry(b, camera, id, i);
      assert forall k: nat :: FirstEntry(a, camera, id, k) ==> k == i;
      assert b[i := WithRoi(b[i], last)] == a[i := WithRoi(a[i], last)];
    } else {
      assert FirstEntry(b, camera, id, |a|);
      assert forall k: nat :: !FirstEntry(a, camera, id, k);
    }
  }
}
