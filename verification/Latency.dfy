// URGCWrapper::computeLatency: calibrating the delay of scans against the lidar's clock.
// Durations are exact reals, in seconds; what the lidar answers is a parameter.
module Latency {
  import opened Wrappers

  // A reading of the lidar's clock between two readings of the system clock.
  datatype Native = Native(request: real, laser: real, response: real)
  {
    function Middle(): real { (request + response) / 2.0 }
    function Offset(): real { laser - Middle() }
  }

  // A scan: when the lidar says it was taken, and when the system received it.
  datatype Scan = Scan(laser: real, system: real)
  {
    function Offset(): real { laser - system }
  }

  // ----- order statistics -----

  function Count(s: seq<real>, p: real -> bool): (n: nat)
    ensures n <= |s|
  {
    if s == [] then 0 else (if p(s[0]) then 1 else 0) + Count(s[1..], p)
  }

  // x is the element that sorting s would put at index k.
  predicate IsKth(s: seq<real>, k: nat, x: real)
  {
    x in s && Count(s, y => y < x) <= k < Count(s, y => y <= x)
  }

  function Below(s: seq<real>, p: real): (r: seq<real>)
    ensures |r| <= |s| && forall y :: y in r <==> y in s && y < p
  {
    if s == [] then [] else (if s[0] < p then [s[0]] else []) + Below(s[1..], p)
  }

  function Above(s: seq<real>, p: real): (r: seq<real>)
    ensures |r| <= |s| && forall y :: y in r <==> y in s && y > p
  {
    if s == [] then [] else (if s[0] > p then [s[0]] else []) + Above(s[1..], p)
  }

  // What std::nth_element leaves at index k.
  function Nth(s: seq<real>, k: nat): (x: real)
    requires k < |s|
    ensures x in s
    decreases |s|
  {
    var below, above := Below(s, s[0]), Above(s, s[0]);
    if k < |below| then BelowShorter(s); Nth(below, k)
    else if k < |s| - |above| then s[0]
    else AboveShorter(s); Nth(above, k - (|s| - |above|))
  }

  lemma BelowShorter(s: seq<real>)
    requires s != []
    ensures |Below(s, s[0])| < |s|
  {
  }

  lemma AboveShorter(s: seq<real>)
    requires s != []
    ensures |Above(s, s[0])| < |s|
  {
  }

  lemma {:induction false} CountSplit(s: seq<real>, p: real, q: real -> bool)
    ensures |Below(s, p)| + |Above(s, p)| <= |s|
    ensures Count(s, q) == Count(Below(s, p), q) + Count(Above(s, p), q)
      + if q(p) then |s| - |Below(s, p)| - |Above(s, p)| else 0
  {
    if s != [] {
      CountSplit(s[1..], p, q);
      assert ([s[0]] + Below(s[1..], p))[1..] == Below(s[1..], p);
      assert ([s[0]] + Above(s[1..], p))[1..] == Above(s[1..], p);
      assert [] + Below(s[1..], p) == Below(s[1..], p);
      assert [] + Above(s[1..], p) == Above(s[1..], p);
    }
  }

  lemma {:induction false} CountNone(s: seq<real>, q: real -> bool)
    requires forall y :: y in s ==> !q(y)
    ensures Count(s, q) == 0
  {
    if s != [] {
      var x := s[0];
      assert !q(x);
      CountNone(s[1..], q);
    }
  }

  lemma {:induction false} CountAll(s: seq<real>, q: real -> bool)
    requires forall y :: y in s ==> q(y)
    ensures Count(s, q) == |s|
  {
    if s != [] {
      var x := s[0];
      assert q(x);
      CountAll(s[1..], q);
    }
  }

  lemma {:induction false} CountMore(s: seq<real>, p: real -> bool, q: real -> bool)
    requires forall y :: y in s && p(y) ==> q(y)
    ensures Count(s, p) <= Count(s, q)
  {
    if s != [] {
      var x := s[0];
      assert p(x) ==> q(x);
      CountMore(s[1..], p, q);
    }
  }

  lemma {:induction false} CountApart(s: seq<real>, p: real -> bool, q: real -> bool)
    requires forall y :: y in s ==> !(p(y) && q(y))
    ensures Count(s, p) + Count(s, q) <= |s|
  {
    if s != [] {
      var x := s[0];
      assert !(p(x) && q(x));
      CountApart(s[1..], p, q);
    }
  }

  lemma {:induction false} NthIsKth(s: seq<real>, k: nat)
    requires k < |s|
    ensures IsKth(s, k, Nth(s, k))
    decreases |s|
  {
    var p, x := s[0], Nth(s, k);
    var below, above := Below(s, p), Above(s, p);
    CountSplit(s, p, y => y < x);
    CountSplit(s, p, y => y <= x);
    if k < |below| {
      BelowShorter(s);
      NthIsKth(below, k);
      CountNone(above, y => y < x);
    } else if k < |s| - |above| {
      CountNone(above, y => y < x);
      CountAll(below, y => y <= x);
    } else {
      AboveShorter(s);
      NthIsKth(above, k - (|s| - |above|));
      CountAll(below, y => y <= x);
    }
  }

  lemma KthIsUnique(s: seq<real>, k: nat, x: real, z: real)
    requires IsKth(s, k, x) && IsKth(s, k, z)
    ensures x == z
  {
    if x < z {
      CountMore(s, y => y <= x, y => y < z);
    } else if z < x {
      CountMore(s, y => y <= z, y => y < x);
    }
  }

  function Median(s: seq<real>): real
    requires s != []
  {
    Nth(s, |s| / 2)
  }

  // The median lies where a strict majority lies.
  lemma MajorityRules(s: seq<real>, lo: real, hi: real)
    requires s != [] && 2 * Count(s, y => lo <= y <= hi) > |s|
    ensures lo <= Median(s) <= hi
  {
    hide Nth, Count;
    var x := Median(s);
    NthIsKth(s, |s| / 2);
    if x < lo {
      CountApart(s, y => y <= x, y => lo <= y <= hi);
    } else if hi < x {
      CountMore(s, y => lo <= y <= hi, y => y < x);
    }
  }

  // ----- the code -----

  // One measurement: the scan against the mean of the clock readings around it.
  function Measured(before: Native, scan: Scan, after: Native): real
  {
    scan.Offset() - (before.Offset() + after.Offset()) / 2.0
  }

  function TimeOffset(natives: seq<Native>, scans: seq<Scan>, i: nat): real
    requires i < |scans| < |natives|
  {
    Measured(natives[i], scans[i], natives[i + 1])
  }

  function TimeOffsets(natives: seq<Native>, scans: seq<Scan>): (r: seq<real>)
    requires |scans| < |natives|
    ensures |r| == |scans|
    ensures forall i :: 0 <= i < |r| ==> r[i] == TimeOffset(natives, scans, i)
  {
    seq(|scans|, i requires 0 <= i < |scans| => TimeOffset(natives, scans, i))
  }

  // Each measurement, in the raw readings.
  predicate IsMeasurement(x: real, before: Native, scan: Option<Scan>, after: Native)
  {
    && scan.Some?
    && x == scan.value.laser - scan.value.system
            - (before.laser - (before.request + before.response) / 2.0) / 2.0
            - (after.laser - (after.request + after.response) / 2.0) / 2.0
  }

  predicate AreMeasurements(s: seq<real>, natives: seq<NativeCall>, scans: seq<ScanCall>)
  {
    && |s| == |scans| < |natives|
    && forall i :: 0 <= i < |s| ==> IsMeasurement(s[i], natives[i].reading, scans[i].reading, natives[i + 1].reading)
  }

  lemma TimeOffsetsMeasure(natives: seq<NativeCall>, scans: seq<ScanCall>)
    requires |scans| < |natives| && forall i :: 0 <= i < |scans| ==> scans[i].Works()
    ensures AreMeasurements(TimeOffsets(Natives(natives), Scans(scans)), natives, scans)
  {
    var s := TimeOffsets(Natives(natives), Scans(scans));
    forall i | 0 <= i < |s|
      ensures s[i] == Measured(natives[i].reading, scans[i].reading.value, natives[i + 1].reading)
    {
      assert Some(Scans(scans)[i]) == scans[i].reading;
    }
  }

  function NativeOffsets(readings: seq<Native>): (r: seq<real>)
    ensures |r| == |readings|
  {
    seq(|readings|, i requires 0 <= i < |readings| => readings[i].Offset())
  }

  // Scans that have all been received.
  predicate AllReceived(readings: seq<Option<Scan>>)
  {
    forall i :: 0 <= i < |readings| ==> readings[i].Some?
  }

  lemma OneReceived(reading: Option<Scan>)
    ensures AllReceived([reading]) <==> reading.Some?
  {
    assert [reading][0] == reading;
  }

  function ScanOffsets(readings: seq<Option<Scan>>): (r: seq<real>)
    requires AllReceived(readings)
    ensures |r| == |readings|
  {
    seq(|readings|, i requires 0 <= i < |readings| => readings[i].value.Offset())
  }

  // The median of one measurement.
  lemma SingleReading(native: Native, scan: Scan)
    ensures Median(NativeOffsets([native])) == native.Offset()
    ensures Median(ScanOffsets([Some(scan)])) == scan.Offset()
  {
    assert NativeOffsets([native]) == [native.Offset()];
    assert ScanOffsets([Some(scan)]) == [scan.Offset()];
  }

  lemma FirstReading(native: Native)
    ensures Median(NativeOffsets([native])) == native.Offset()
  {
    assert NativeOffsets([native]) == [native.Offset()];
  }

  // One use of the time stamp mode: whether it can be started and stopped.
  datatype NativeCall = NativeCall(starts: bool, reading: Native, stops: bool)
  {
    predicate Works() { starts && stops }
  }

  // One measurement: whether it can be started, and the scan if there is one.
  datatype ScanCall = ScanCall(starts: bool, reading: Option<Scan>)
  {
    predicate Works() { starts && reading.Some? }
  }

  // The calls up to the i-th measurement, and the clock reading after it, do not fail.
  predicate WorksUpTo(natives: seq<NativeCall>, scans: seq<ScanCall>, i: nat)
    requires i <= |scans| < |natives|
  {
    (forall j :: 0 <= j <= i ==> natives[j].Works()) && forall j :: 0 <= j < i ==> scans[j].Works()
  }

  // The first call that fails is a scan that had been started.
  predicate StaysStarted(natives: seq<NativeCall>, scans: seq<ScanCall>)
    requires |scans| < |natives|
  {
    exists i :: 0 <= i < |scans| && WorksUpTo(natives, scans, i) && scans[i].starts && scans[i].reading.None?
  }

  function Natives(natives: seq<NativeCall>): (r: seq<Native>)
    ensures |r| == |natives| && forall i :: 0 <= i < |r| ==> r[i] == natives[i].reading
  {
    seq(|natives|, i requires 0 <= i < |natives| => natives[i].reading)
  }

  function Scans(scans: seq<ScanCall>): (r: seq<Scan>)
    requires forall i :: 0 <= i < |scans| ==> scans[i].Works()
    ensures |r| == |scans| && forall i :: 0 <= i < |r| ==> Some(r[i]) == scans[i].reading
  {
    seq(|scans|, i requires 0 <= i < |scans| && scans[i].Works() => scans[i].reading.value)
  }

  // The middle one of the values, or the larger of the two middle ones.
  lemma MedianIsKth(s: seq<real>)
    requires s != []
    ensures IsKth(s, |s| / 2, Median(s))
  {
    NthIsKth(s, |s| / 2);
  }

  class URGCWrapper {
    var started: bool
    var systemLatency: real
    const firstStep: int
    const lastStep: int
    const angleMin: real
    const angleMinLimit: real
    const scanPeriod: real

    constructor (firstStep: int, lastStep: int, angleMin: real, angleMinLimit: real, scanPeriod: real)
    {
      this.firstStep, this.lastStep, this.scanPeriod := firstStep, lastStep, scanPeriod;
      this.angleMin, this.angleMinLimit := angleMin, angleMinLimit;
      started, systemLatency := false, 0.0;
    }

    // From the rear of the device to the first step of a scan.
    function AngularTimeOffset(): real
    {
      var pi := 3.141592;
      var angle := if firstStep == 0 && lastStep == 0 then angleMinLimit else angleMin;
      (angle + pi) / (2.0 * pi) * scanPeriod
    }

    // The part of a scan period that the beam takes from the rear of the device to the
    // first step: none for a scan that starts at the rear, half for one that starts at the
    // front.
    lemma AngularTimeOffsetMeaning()
      ensures var angle := if firstStep == 0 && lastStep == 0 then angleMinLimit else angleMin;
        && AngularTimeOffset() * 6.283184 == (angle + 3.141592) * scanPeriod
        && (angle == -3.141592 ==> AngularTimeOffset() == 0.0)
        && (angle == 0.0 ==> AngularTimeOffset() == scanPeriod / 2.0)
        && (angle == 3.141592 ==> AngularTimeOffset() == scanPeriod)
    {
      var angle := if firstStep == 0 && lastStep == 0 then angleMinLimit else angleMin;
      assert AngularTimeOffset() == (angle + 3.141592) / 6.283184 * scanPeriod;
    }

    // No result stands for an exception.
    method GetNativeClockOffset(starts: bool, readings: seq<Native>, stops: bool) returns (offset: Option<real>)
      requires readings != []
      ensures offset.Some? <==> !started && starts && stops
      ensures offset.Some? ==> offset.value == Median(NativeOffsets(readings))
      ensures offset.Some? ==> IsKth(NativeOffsets(readings), |readings| / 2, offset.value)
    {
      hide Median, IsKth;
      if started || !starts {
        return None;
      }
      var timeOffsets := new real[|readings|];
      for i := 0 to |readings|
        invariant forall j :: 0 <= j < i ==> timeOffsets[j] == readings[j].Offset()
      {
        timeOffsets[i] := readings[i].laser - (readings[i].response + readings[i].request) / 2.0;
      }
      if !stops {
        return None;
      }
      assert timeOffsets[..] == NativeOffsets(readings);
      MedianIsKth(timeOffsets[..]);
      return Some(Median(timeOffsets[..]));
    }

    // A scan that cannot be got leaves the measurement started.
    method GetTimeStampOffset(starts: bool, readings: seq<Option<Scan>>) returns (offset: Option<real>)
      requires readings != []
      modifies this`started
      ensures started == (old(started) || (starts && !AllReceived(readings)))
      ensures offset.Some? <==> !old(started) && starts && AllReceived(readings)
      ensures offset.Some? ==> offset.value == Median(ScanOffsets(readings))
      ensures offset.Some? ==> IsKth(ScanOffsets(readings), |readings| / 2, offset.value)
    {
      hide Median, IsKth;
      if started || !starts {
        return None;
      }
      started := true;
      var timeOffsets := new real[|readings|];
      for i := 0 to |readings|
        invariant started
        invariant forall j :: 0 <= j < i ==> readings[j].Some? && timeOffsets[j] == readings[j].value.Offset()
      {
        if readings[i].None? {
          return None;
        }
        timeOffsets[i] := readings[i].value.laser - readings[i].value.system;
      }
      started := false;
      assert timeOffsets[..] == ScanOffsets(readings);
      MedianIsKth(timeOffsets[..]);
      return Some(Median(timeOffsets[..]));
    }

    // The measurements are relative to the first clock reading, which cancels: each is the
    // scan against the mean of the two clock readings around it. With a strict majority of
    // sound measurements, whatever the others are, the result is the actual latency plus the
    // angular offset, to within the drift over the slack.
    method ComputeLatency(natives: seq<NativeCall>, scans: seq<ScanCall>) returns (latency: Option<real>)
      requires scans != [] && |natives| == |scans| + 1
      modifies this`started, this`systemLatency
      ensures latency.Some? <==> !old(started) && WorksUpTo(natives, scans, |scans|)
      ensures started == (old(started) || StaysStarted(natives, scans))
      ensures latency.None? ==> systemLatency == 0.0
      ensures latency.Some? ==>
        && systemLatency == Median(TimeOffsets(Natives(natives), Scans(scans)))
        && latency.value == systemLatency + AngularTimeOffset()
      ensures latency.Some? ==>
        var s := TimeOffsets(Natives(natives), Scans(scans));
        AreMeasurements(s, natives, scans) && IsKth(s, |s| / 2, systemLatency)
      ensures latency.Some? ==>
        (latency.value - systemLatency) * 6.283184
        == ((if firstStep == 0 && lastStep == 0 then angleMinLimit else angleMin) + 3.141592) * scanPeriod
      ensures latency.Some? ==>
        forall sound, offset, drift, actual, slack ::
          MostlySound(Natives(natives), Scans(scans), sound, offset, drift, actual, slack) ==>
            Abs(latency.value - (actual + AngularTimeOffset())) <= Abs(drift) * slack
    {
      hide Median, NativeOffsets, ScanOffsets, AllReceived, MostlySound, IsKth, AngularTimeOffset, AreMeasurements;
      systemLatency := 0.0;
      var start := GetNativeClockOffset(natives[0].starts, [natives[0].reading], natives[0].stops);
      if start.None? {
        return None;
      }
      FirstReading(natives[0].reading);
      var previous := 0.0;
      var timeOffsets := new real[|scans|];
      for i := 0 to |scans|
        invariant started == old(started) == false && systemLatency == 0.0
        invariant WorksUpTo(natives, scans, i)
        invariant previous == natives[i].reading.Offset() - start.value
        invariant start.value == natives[0].reading.Offset()
        invariant forall j :: 0 <= j < i ==>
          timeOffsets[j] == Measured(natives[j].reading, scans[j].reading.value, natives[j + 1].reading)
      {
        var scan := GetTimeStampOffset(scans[i].starts, [scans[i].reading]);
        OneReceived(scans[i].reading);
        if scan.None? {
          return None;
        }
        assert [scans[i].reading] == [Some(scans[i].reading.value)];
        var post := GetNativeClockOffset(natives[i + 1].starts, [natives[i + 1].reading], natives[i + 1].stops);
        if post.None? {
          return None;
        }
        SingleReading(natives[i + 1].reading, scans[i].reading.value);
        var adjustedScan, adjustedPost := scan.value - start.value, post.value - start.value;
        timeOffsets[i] := adjustedScan - (adjustedPost + previous) / 2.0;
        previous := adjustedPost;
      }
      assert timeOffsets[..] == TimeOffsets(Natives(natives), Scans(scans));
      systemLatency := Median(timeOffsets[..]);
      MedianIsKth(timeOffsets[..]);
      TimeOffsetsMeasure(natives, scans);
      AngularTimeOffsetMeaning();
      forall sound, offset, drift, actual, slack
        | MostlySound(Natives(natives), Scans(scans), sound, offset, drift, actual, slack)
        ensures Abs(systemLatency - actual) <= Abs(drift) * slack
      {
        LatencyFound(Natives(natives), Scans(scans), sound, offset, drift, actual, slack);
      }
      return Some(systemLatency + AngularTimeOffset());
    }
  }

  // ----- what the calibration finds -----

  // Measurement i is sound: the lidar's clock runs at a constant offset and drift against
  // the system clock, it is read half-way between request and
  // response, the scan is received -latency after it is taken, and it is taken within
  // slack of the middle of the two clock readings.
  ghost predicate Sound(natives: seq<Native>, scans: seq<Scan>, i: nat,
                        offset: real, drift: real, latency: real, slack: real)
    requires i < |scans| < |natives|
  {
    var taken := scans[i].system + latency;
    var before := (natives[i].request + natives[i].response) / 2.0;
    var after := (natives[i + 1].request + natives[i + 1].response) / 2.0;
    && natives[i].laser == before + offset + drift * before
    && natives[i + 1].laser == after + offset + drift * after
    && scans[i].laser == taken + offset + drift * taken
    && -slack <= taken - (before + after) / 2.0 <= slack
  }

  function Abs(x: real): real { if x < 0.0 then -x else x }

  lemma SoundMeasurement(natives: seq<Native>, scans: seq<Scan>, i: nat,
                         offset: real, drift: real, latency: real, slack: real)
    requires i < |scans| < |natives|
    requires Sound(natives, scans, i, offset, drift, latency, slack)
    ensures Abs(TimeOffset(natives, scans, i) - latency) <= Abs(drift) * slack
  {
    var taken := scans[i].system + latency;
    var m, n := natives[i].Middle(), natives[i + 1].Middle();
    var gap := taken - (m + n) / 2.0;
    assert scans[i].Offset() == latency + offset + drift * taken;
    assert natives[i].Offset() == offset + drift * m;
    assert natives[i + 1].Offset() == offset + drift * n;
    assert TimeOffset(natives, scans, i) - latency == drift * gap by {
      assert drift * gap == drift * taken - (drift * m + drift * n) / 2.0;
    }
    ProductBound(drift, gap, slack);
  }

  lemma ProductBound(x: real, y: real, bound: real)
    requires -bound <= y <= bound
    ensures -(Abs(x) * bound) <= x * y <= Abs(x) * bound
  {
  }

  lemma {:induction false} CountAtLeast(s: seq<real>, q: real -> bool, hits: set<nat>, from: nat)
    requires from <= |s| && forall i :: i in hits ==> from <= i < |s| && q(s[i])
    ensures |hits| <= Count(s[from..], q)
    decreases |s| - from
  {
    if from == |s| {
      assert hits == {};
    } else {
      CountAtLeast(s, q, hits - {from}, from + 1);
      assert s[from..][1..] == s[from + 1..];
    }
  }

  // A strict majority of the measurements are sound.
  ghost predicate MostlySound(natives: seq<Native>, scans: seq<Scan>, sound: set<nat>,
                              offset: real, drift: real, latency: real, slack: real)
  {
    && |natives| == |scans| + 1 && 2 * |sound| > |scans|
    && forall i :: i in sound ==> i < |scans| && Sound(natives, scans, i, offset, drift, latency, slack)
  }

  // Then offset and drift cancel in the median.
  lemma LatencyFound(natives: seq<Native>, scans: seq<Scan>, sound: set<nat>,
                     offset: real, drift: real, latency: real, slack: real)
    requires scans != [] && MostlySound(natives, scans, sound, offset, drift, latency, slack)
    ensures Abs(Median(TimeOffsets(natives, scans)) - latency) <= Abs(drift) * slack
    ensures slack == 0.0 ==> Median(TimeOffsets(natives, scans)) == latency
  {
    hide Sound, Median, TimeOffset;
    var s := TimeOffsets(natives, scans);
    var bound := Abs(drift) * slack;
    var near := y => latency - bound <= y <= latency + bound;
    forall i | i in sound ensures near(s[i]) {
      SoundMeasurement(natives, scans, i, offset, drift, latency, slack);
    }
    CountAtLeast(s, near, sound, 0);
    assert s[0..] == s;
    CountMore(s, near, y => latency - bound <= y <= latency + bound);
    MajorityRules(s, latency - bound, latency + bound);
  }
}
