// UamROS::scanCallback: from the reply of a scan to the published message and to the points
// that violate the reference safety area. NaN is None, and floats are exact reals.
module ScanAssembly {
  import opened Wrappers
  import opened Protocol
  import opened ScanParameters

  // What an int becomes when it is compared with a size.
  function Unsigned(x: int): nat { x % 0x1_0000_0000_0000_0000 }

  predicate IsInt(x: int) { -0x8000_0000 <= x < 0x8000_0000 }

  type Reading = Option<real>

  datatype ScanReply = ScanReply(
    areaNumber: nat, lockout: bool, ranges: seq<nat>,
    intensities: Option<seq<nat>>)    // AR01 has them, AR00 and AR06 have not
  {
    predicate Valid()
    {
      |ranges| < 0x8000_0000 && (intensities.Some? ==> |intensities.value| == |ranges|)
    }
  }

  datatype LaserScan = LaserScan(
    stamp: real, angleMin: real, angleMax: real, angleIncrement: real, timeIncrement: real,
    ranges: seq<Reading>, intensities: seq<nat>)

  datatype Params = Params(
    angleMin: real, angleMax: real, rangeOffset: real, timeOffset: real, referenceArea: Option<nat>)

  // Zero means no echo; from 0xFFFC on, the values are error codes.
  function Meters(rangeOffset: real, raw: nat): Reading
  {
    if raw != 0 && raw < 0xFFFC then Some(rangeOffset + raw as real / 1000.0) else None
  }

  predicate Violates(ranges: seq<Reading>, area: seq<Reading>, index: nat)
  {
    && index < |ranges| && index < |area| && ranges[index].Some? && area[index].Some?
    && ranges[index].value <= area[index].value
  }

  // A reading that counts beyond the end of the profile: the code reads outside it.
  ghost predicate Overreads(ranges: seq<Reading>, area: seq<Reading>)
  {
    exists i :: |area| <= i < |ranges| && ranges[i].Some?
  }

  type Violation = (nat, real)

  ghost predicate Ordered(v: seq<Violation>)
  {
    forall j, k :: 0 <= j < k < |v| ==> v[j].0 < v[k].0
  }

  ghost predicate Lists(v: seq<Violation>, index: nat)
  {
    exists j :: 0 <= j < |v| && v[j].0 == index
  }

  ghost predicate AllViolate(v: seq<Violation>, ranges: seq<Reading>, area: seq<Reading>)
  {
    forall j :: 0 <= j < |v| ==> Violates(ranges, area, v[j].0) && ranges[v[j].0] == Some(v[j].1)
  }

  // The violations are in the order of the scan, they are violations, and none is missing.
  ghost predicate AreViolations(v: seq<Violation>, ranges: seq<Reading>, area: seq<Reading>)
  {
    && Ordered(v)
    && AllViolate(v, ranges, area)
    && forall i :: 0 <= i < |ranges| && Violates(ranges, area, i) ==> Lists(v, i)
  }

  function AllMeters(rangeOffset: real, raw: seq<nat>): (r: seq<Reading>)
    ensures |r| == |raw| && forall i :: 0 <= i < |r| ==> r[i] == Meters(rangeOffset, raw[i])
  {
    seq(|raw|, i requires 0 <= i < |raw| => Meters(rangeOffset, raw[i]))
  }

  // There is a finite reading in the window.
  predicate AnyFinite(ranges: seq<Reading>, first: int, last: int)
  {
    exists i :: 0 <= i < |ranges| && first <= i <= last && ranges[i].Some?
  }

  // The part of the readings in the window.
  function InView<T>(s: seq<T>, first: int, last: int): seq<T>
  {
    if 0 <= first <= last < |s| then s[first..last + 1] else []
  }

  // Whether a reply that is neither discarded nor locked out makes a message.
  predicate Publishes(ranges: seq<Reading>, first: int, last: int)
  {
    0 <= first <= last < |ranges| && AnyFinite(ranges, first, last)
  }

  // A negative first step, compared as a size, is beyond every index.
  lemma UnsignedWindow(firstStep: int, lastStep: int, index: nat)
    requires IsInt(firstStep) && IsInt(lastStep) && 0 <= lastStep && index < 0x8000_0000
    ensures Unsigned(firstStep) <= index <= Unsigned(lastStep) <==> 0 <= firstStep <= index <= lastStep
  {
  }

  // So is a negative last step, compared as a size, beyond every length.
  lemma UnsignedLength(lastStep: int, length: nat)
    requires IsInt(lastStep) && length < 0x8000_0000
    ensures length <= Unsigned(lastStep) <==> !(0 <= lastStep < length)
  {
  }

  // The part of the first n readings in the window.
  function Seen(all: seq<Reading>, first: int, last: int, n: nat): seq<Reading>
    requires last < |all| && n <= |all|
  {
    if 0 <= first <= last && first < n then all[first..if n <= last then n else last + 1] else []
  }

  lemma SeenGrows(all: seq<Reading>, first: int, last: int, n: nat)
    requires last < |all| && n < |all|
    ensures Seen(all, first, last, n + 1)
         == Seen(all, first, last, n) + if 0 <= first <= n <= last then [all[n]] else []
    ensures Seen(all, first, last, 0) == [] && Seen(all, first, last, |all|) == InView(all, first, last)
  {
  }

  // The loop over the readings. It is given up where it would read beyond the profile.
  method Collect(reply: ScanReply, firstStep: int, lastStep: int, rangeOffset: real, area: Option<seq<Reading>>)
    returns (ranges: seq<Reading>, violations: seq<Violation>, anyFinite: bool, overread: bool)
    requires reply.Valid() && IsInt(firstStep) && 0 <= lastStep < |reply.ranges|
    ensures overread <==> area.Some? && Overreads(AllMeters(rangeOffset, reply.ranges), area.value)
    ensures var all := AllMeters(rangeOffset, reply.ranges);
      !overread ==>
        && ranges == InView(all, firstStep, lastStep)
        && anyFinite == Publishes(all, firstStep, lastStep)
        && if area.Some? then AreViolations(violations, all, area.value) else violations == []
  {
    hide AreViolations, Meters, Unsigned, Seen;
    ranges, violations, anyFinite, overread := [], [], false, false;
    ghost var all := AllMeters(rangeOffset, reply.ranges);
    SeenGrows(all, firstStep, lastStep, 0);
    if area.Some? {
      NoViolations([], area.value);
    }
    for index := 0 to |reply.ranges|
      invariant ranges == Seen(all, firstStep, lastStep, index)
      invariant anyFinite == exists i :: 0 <= i < index && 0 <= firstStep <= i <= lastStep && all[i].Some?
      invariant area.None? ==> violations == []
      invariant area.Some? ==> AreViolations(violations, all[..index], area.value)
      invariant area.Some? ==> !Overreads(all[..index], area.value)
      invariant !overread
    {
      var withinFov := Unsigned(firstStep) <= index && Unsigned(lastStep) >= index;
      var meters := Meters(rangeOffset, reply.ranges[index]);
      UnsignedWindow(firstStep, lastStep, index);
      SeenGrows(all, firstStep, lastStep, index);
      assert meters == all[index];
      if withinFov {
        ranges := ranges + [meters];
        if meters.Some? {
          anyFinite := true;
        }
      }
      if area.Some? {
        ghost var before := violations;
        if meters.Some? {
          if |area.value| <= index {
            overread := true;
            return;
          }
          var safety := area.value[index];
          if safety.Some? && meters.value <= safety.value {
            violations := violations + [(index, meters.value)];
          }
        }
        NextViolation(before, violations, all, area.value, index);
      }
    }
    assert all[..|all|] == all;
  }

  lemma NoViolations(v: seq<Violation>, area: seq<Reading>)
    ensures AreViolations(v, [], area) <==> v == []
  {
    if v != [] {
      assert !Violates([], area, v[0].0);
    }
  }

  lemma NextViolation(v: seq<Violation>, w: seq<Violation>, all: seq<Reading>, area: seq<Reading>, n: nat)
    requires n < |all| && AreViolations(v, all[..n], area)
    requires w == if Violates(all, area, n) then v + [(n, all[n].value)] else v
    ensures AreViolations(w, all[..n + 1], area)
  {
    hide Violates;
    ViolatesPrefix(all, area, n);
    forall i | 0 <= i < n + 1 && Violates(all[..n + 1], area, i) ensures Lists(w, i) {
      if i < n {
        assert Violates(all[..n], area, i);
        var j :| 0 <= j < |v| && v[j].0 == i;
        assert w[j].0 == i;
      } else {
        assert w[|v|].0 == i;
      }
    }
    forall j | 0 <= j < |w|
      ensures Violates(all[..n + 1], area, w[j].0) && all[..n + 1][w[j].0] == Some(w[j].1)
    {
      if j < |v| {
        assert Violates(all[..n], area, v[j].0);
      }
    }
  }

  lemma ViolatesPrefix(all: seq<Reading>, area: seq<Reading>, n: nat)
    requires n < |all|
    ensures forall i :: 0 <= i < n ==>
      Violates(all[..n], area, i) == Violates(all, area, i) == Violates(all[..n + 1], area, i)
    ensures Violates(all[..n + 1], area, n) == Violates(all, area, n)
    ensures Violates(all, area, n) ==> all[n].Some?
    ensures forall i {:trigger Violates(all[..n], area, i)} :: i >= n ==> !Violates(all[..n], area, i)
  {
  }

  // ----- distances in plain numbers -----

  // A reading is finite for the numbers from 1 to 0xFFFB, which are millimetres.
  predicate Measures(reading: Reading, raw: nat, rangeOffset: real)
  {
    && (reading.Some? <==> 0 < raw < 0xFFFC)
    && (reading.Some? ==> 1000.0 * (reading.value - rangeOffset) == raw as real)
  }

  lemma MetersMeasure(raw: nat, rangeOffset: real)
    ensures Measures(Meters(rangeOffset, raw), raw, rangeOffset)
  {
  }

  // Some number of the window is a distance.
  predicate HasDistance(reply: ScanReply, first: int, last: int)
  {
    && 0 <= first <= last < |reply.ranges|
    && exists i :: first <= i <= last && 0 < reply.ranges[i] < 0xFFFC
  }

  // The readings from first to last.
  predicate ReadingsShown(shown: seq<Reading>, raw: seq<nat>, first: int, last: int, rangeOffset: real)
  {
    && 0 <= first <= last < |raw| && |shown| == last - first + 1
    && forall k :: 0 <= k < |shown| ==> Measures(shown[k], raw[first + k], rangeOffset)
  }

  predicate IntensitiesShown(shown: seq<nat>, raw: Option<seq<nat>>, first: int, last: int)
  {
    if raw.None? then shown == []
    else
      && 0 <= first <= last < |raw.value| && |shown| == last - first + 1
      && forall k :: 0 <= k < |shown| ==> shown[k] == raw.value[first + k]
  }

  // Reading index, in metres, is a distance that does not reach beyond the profile.
  predicate Inside(raw: seq<nat>, profile: seq<Reading>, rangeOffset: real, index: nat, meters: real)
  {
    && index < |raw| && index < |profile|
    && 0 < raw[index] < 0xFFFC && 1000.0 * (meters - rangeOffset) == raw[index] as real
    && profile[index].Some? && meters <= profile[index].value
  }

  // All of these points and no others, in the order of the scan.
  ghost predicate PointsInside(points: seq<Violation>, raw: seq<nat>, profile: seq<Reading>, rangeOffset: real)
  {
    && (forall j, k :: 0 <= j < k < |points| ==> points[j].0 < points[k].0)
    && forall i: nat, x: real :: Inside(raw, profile, rangeOffset, i, x) <==> (i, x) in points
  }

  // A distance beyond the end of the profile.
  predicate LongerThan(raw: seq<nat>, profile: seq<Reading>)
  {
    exists i :: |profile| <= i < |raw| && 0 < raw[i] < 0xFFFC
  }

  lemma PublishesMeaning(reply: ScanReply, rangeOffset: real, first: int, last: int)
    ensures Publishes(AllMeters(rangeOffset, reply.ranges), first, last) <==> HasDistance(reply, first, last)
  {
    var all := AllMeters(rangeOffset, reply.ranges);
    forall i | 0 <= i < |all| ensures all[i].Some? <==> 0 < reply.ranges[i] < 0xFFFC {
      MetersMeasure(reply.ranges[i], rangeOffset);
    }
  }

  lemma InViewMeaning(raw: seq<nat>, rangeOffset: real, first: int, last: int)
    requires 0 <= first <= last < |raw|
    ensures ReadingsShown(InView(AllMeters(rangeOffset, raw), first, last), raw, first, last, rangeOffset)
  {
    hide Meters;
    hide Measures;
    var shown := InView(AllMeters(rangeOffset, raw), first, last);
    forall k | 0 <= k < |shown| ensures Measures(shown[k], raw[first + k], rangeOffset) {
      MetersMeasure(raw[first + k], rangeOffset);
    }
  }

  lemma InViewIs(raw: seq<nat>, first: int, last: int)
    requires 0 <= first <= last < |raw|
    ensures IntensitiesShown(InView(raw, first, last), Some(raw), first, last)
  {
  }

  lemma OverreadsMeaning(raw: seq<nat>, profile: seq<Reading>, rangeOffset: real)
    ensures Overreads(AllMeters(rangeOffset, raw), profile) <==> LongerThan(raw, profile)
  {
    var all := AllMeters(rangeOffset, raw);
    forall i | 0 <= i < |all| ensures all[i].Some? <==> 0 < raw[i] < 0xFFFC {
      MetersMeasure(raw[i], rangeOffset);
    }
  }

  lemma InsideMeaning(raw: seq<nat>, profile: seq<Reading>, rangeOffset: real, i: nat, x: real)
    ensures var all := AllMeters(rangeOffset, raw);
      Inside(raw, profile, rangeOffset, i, x) <==> i < |all| && Violates(all, profile, i) && all[i] == Some(x)
  {
    if i < |raw| {
      MetersMeasure(raw[i], rangeOffset);
    }
  }

  lemma PointsMeaning(v: seq<Violation>, raw: seq<nat>, profile: seq<Reading>, rangeOffset: real)
    requires AreViolations(v, AllMeters(rangeOffset, raw), profile)
    ensures PointsInside(v, raw, profile, rangeOffset)
  {
    hide Inside, Meters;
    var all := AllMeters(rangeOffset, raw);
    forall i: nat, x: real ensures Inside(raw, profile, rangeOffset, i, x) <==> (i, x) in v {
      InsideMeaning(raw, profile, rangeOffset, i, x);
      if (i, x) in v {
        var j :| 0 <= j < |v| && v[j] == (i, x);
        assert Violates(all, profile, v[j].0);
      }
      if Inside(raw, profile, rangeOffset, i, x) {
        assert Lists(v, i);
        var j :| 0 <= j < |v| && v[j].0 == i;
        assert v[j] == (i, x);
      }
    }
  }

  class UamRos {
    var params: Params
    var paramsChanged: bool
    var scanParams: ScanParameters
    var safetyAreas: map<nat, map<nat, seq<Reading>>>
    var discardUntil: real
    var scanStamp: real
    var published: seq<LaserScan>              // the messages of the scan topic
    var inArea: seq<seq<Violation>>            // what publishPointsInArea has been given
    var overread: bool                         // a profile has been read beyond its end

    constructor (params: Params, scanParams: ScanParameters, safetyAreas: map<nat, map<nat, seq<Reading>>>)
      ensures this.params == params && this.scanParams == scanParams && this.safetyAreas == safetyAreas
      ensures !paramsChanged && discardUntil == 0.0 && published == [] && inArea == [] && !overread
    {
      this.params, this.scanParams, this.safetyAreas := params, scanParams, safetyAreas;
      paramsChanged, discardUntil, scanStamp, published, inArea, overread := false, 0.0, 0.0, [], [], false;
    }

    predicate Discards(now: real)
      reads this
    {
      discardUntil != 0.0 && now < discardUntil
    }

    // The profile of the reference area that is active in a reply.
    function SafetyArea(areaNumber: nat): Option<seq<Reading>>
      reads this`params, this`safetyAreas
    {
      if params.referenceArea.Some? && areaNumber in safetyAreas
         && params.referenceArea.value in safetyAreas[areaNumber] then
        Some(safetyAreas[areaNumber][params.referenceArea.value])
      else None
    }

    // The window that the next reply is seen through.
    function Window(): (int, int)
      reads this, scanParams
    {
      if paramsChanged then scanParams.steps.Window(params.angleMin, params.angleMax)
      else (scanParams.firstStep, scanParams.lastStep)
    }

    // The readings, intensities and header of a message.
    ghost predicate Reports(m: LaserScan, reply: ScanReply, wallTime: real, first: int, last: int)
      reads this`params, this`scanParams, scanParams
    {
      && ReadingsShown(m.ranges, reply.ranges, first, last, params.rangeOffset)
      && IntensitiesShown(m.intensities, reply.intensities, first, last)
      && m.stamp == wallTime + params.timeOffset + scanParams.angularTimeOffset
      && m.angleMin == scanParams.angleMin && m.angleMax == scanParams.angleMax
      && m.angleIncrement == scanParams.angleIncrement && m.timeIncrement == scanParams.timeIncrement
    }

    // The points of the reference area that is in the database for the active area.
    ghost predicate ListsPoints(points: seq<Violation>, reply: ScanReply)
      reads this`params, this`safetyAreas
    {
      if params.referenceArea.Some? && reply.areaNumber in safetyAreas
         && params.referenceArea.value in safetyAreas[reply.areaNumber] then
        PointsInside(points, reply.ranges, safetyAreas[reply.areaNumber][params.referenceArea.value],
                     params.rangeOffset)
      else points == []
    }

    // The profile is shorter than the reply and a distance lies beyond its end.
    predicate TooShort(reply: ScanReply)
      reads this`params, this`safetyAreas
    {
      && params.referenceArea.Some? && reply.areaNumber in safetyAreas
      && params.referenceArea.value in safetyAreas[reply.areaNumber]
      && LongerThan(reply.ranges, safetyAreas[reply.areaNumber][params.referenceArea.value])
    }

    // A message is published exactly for a reply that arrives after the deadline, is not
    // locked out and has a distance in the window; it says what the reply says there, and
    // the points in the reference area are listed with it.
    method ScanCallback(reply: ScanReply, wallTime: real, now: real)
      requires reply.Valid() && scanParams.Valid()
      requires var (first, last) := Window(); IsInt(first) && IsInt(last)
      modifies this`scanStamp, this`paramsChanged, this`published, this`inArea, this`overread, scanParams
      ensures scanStamp == now && scanParams.Valid()
      ensures scanParams.steps == old(scanParams.steps) && scanParams.rpm == old(scanParams.rpm)
      ensures var (first, last) :=
          if old(paramsChanged) then scanParams.steps.Window(params.angleMin, params.angleMax)
          else (old(scanParams.firstStep), old(scanParams.lastStep));
        var late := discardUntil == 0.0 || discardUntil <= now;
        && (overread
            <==> old(overread) || (late && !reply.lockout && 0 <= last < |reply.ranges| && TooShort(reply)))
        && (late ==> scanParams.firstStep == first && scanParams.lastStep == last)
        && (late && old(paramsChanged) ==> scanParams.Shows(first, last))
        && (old(scanParams.Shows(scanParams.firstStep, scanParams.lastStep))
            ==> scanParams.Shows(scanParams.firstStep, scanParams.lastStep))
        && (!overread ==>
              if late && !reply.lockout && HasDistance(reply, first, last) then
                && |published| == |old(published)| + 1 && published[..|old(published)|] == old(published)
                && Reports(published[|old(published)|], reply, wallTime, first, last)
                && |inArea| == |old(inArea)| + 1 && inArea[..|old(inArea)|] == old(inArea)
                && ListsPoints(inArea[|old(inArea)|], reply)
              else
                published == old(published) && inArea == old(inArea))
      ensures if Discards(now) then
          paramsChanged == old(paramsChanged)
        else
          !paramsChanged && (scanParams.firstStep, scanParams.lastStep) == old(Window())
      ensures var (first, last) := old(Window());
        overread <==> old(overread) || (!Discards(now) && !reply.lockout && ReadsBeyond(reply, last))
      ensures var (first, last) := old(Window());
        !overread ==>
        if !Discards(now) && !reply.lockout
           && Publishes(AllMeters(params.rangeOffset, reply.ranges), first, last) then
          && published == old(published) + [Message(reply, wallTime)]
          && |inArea| == |old(inArea)| + 1 && inArea[..|old(inArea)|] == old(inArea)
          && AreAllViolations(inArea[|old(inArea)|], reply)
        else
          published == old(published) && inArea == old(inArea)
    {
      hide Publishes, Message, AreAllViolations, ReadsBeyond, ListsPoints, TooShort, HasDistance, Reports;
      hide Steps.Window, Steps.TimeOffset, Steps.Step2Angle, Steps.Increment;
      scanStamp := now;
      if discardUntil != 0.0 && scanStamp < discardUntil {
        return;
      }
      if paramsChanged {
        scanParams.SetAngleLimits(params.angleMin, params.angleMax);
        paramsChanged := false;
      }
      if reply.lockout {
        return;
      }
      Report(reply, wallTime);
      ReportMeaning(reply, wallTime, inArea);
    }

    // What Report says, in plain numbers.
    lemma ReportMeaning(reply: ScanReply, wallTime: real, points: seq<seq<Violation>>)
      requires reply.Valid()
      ensures var (first, last) := (scanParams.firstStep, scanParams.lastStep);
        && (ReadsBeyond(reply, last) <==> 0 <= last < |reply.ranges| && TooShort(reply))
        && (Publishes(AllMeters(params.rangeOffset, reply.ranges), first, last) <==> HasDistance(reply, first, last))
        && (HasDistance(reply, first, last) ==> Reports(Message(reply, wallTime), reply, wallTime, first, last))
      ensures forall i :: 0 <= i < |points| && AreAllViolations(points[i], reply) ==> ListsPoints(points[i], reply)
    {
      hide Publishes, AreViolations, AllMeters, Overreads, InView, ReadingsShown, PointsInside, LongerThan, Inside;
      var first, last := scanParams.firstStep, scanParams.lastStep;
      var all := AllMeters(params.rangeOffset, reply.ranges);
      PublishesMeaning(reply, params.rangeOffset, first, last);
      if HasDistance(reply, first, last) {
        InViewMeaning(reply.ranges, params.rangeOffset, first, last);
        if reply.intensities.Some? {
          InViewIs(reply.intensities.value, first, last);
        }
      }
      var area := SafetyArea(reply.areaNumber);
      if area.Some? {
        OverreadsMeaning(reply.ranges, area.value, params.rangeOffset);
        forall i | 0 <= i < |points| && AreAllViolations(points[i], reply) ensures ListsPoints(points[i], reply) {
          PointsMeaning(points[i], reply.ranges, area.value, params.rangeOffset);
        }
      }
    }

    // The message of a reply seen through the current window.
    function Message(reply: ScanReply, wallTime: real): LaserScan
      reads this`params, this`scanParams, scanParams
    {
      var first, last := scanParams.firstStep, scanParams.lastStep;
      LaserScan(
        wallTime + params.timeOffset + scanParams.angularTimeOffset,
        scanParams.angleMin, scanParams.angleMax, scanParams.angleIncrement, scanParams.timeIncrement,
        InView(AllMeters(params.rangeOffset, reply.ranges), first, last),
        if reply.intensities.Some? then InView(reply.intensities.value, first, last) else [])
    }

    // A long enough reply has a finite reading beyond the end of the active profile.
    ghost predicate ReadsBeyond(reply: ScanReply, last: int)
      reads this`params, this`safetyAreas
    {
      var area := SafetyArea(reply.areaNumber);
      0 <= last < |reply.ranges| && area.Some? && Overreads(AllMeters(params.rangeOffset, reply.ranges), area.value)
    }

    ghost predicate AreAllViolations(v: seq<Violation>, reply: ScanReply)
      reads this`params, this`safetyAreas
    {
      var area := SafetyArea(reply.areaNumber);
      if area.Some? then AreViolations(v, AllMeters(params.rangeOffset, reply.ranges), area.value) else v == []
    }

    // Reading k of a message is that of step first + k. By the message's own header it lies
    // at that step's angle, and was measured when the beam passed it: half a period after
    // the rear of the device at the front. Neither depends on the window.
    lemma MessagePlaces(m: LaserScan, reply: ScanReply, wallTime: real, first: int, last: int, k: nat)
      requires Reports(m, reply, wallTime, first, last) && k < |m.ranges|
      requires scanParams.Valid() && scanParams.Shows(first, last)
      requires scanParams.steps.resolution > 0 && first < last
      ensures var n, front := scanParams.steps.resolution as real, scanParams.steps.front;
        var period := 60.0 / scanParams.rpm as real;
        && Measures(m.ranges[k], reply.ranges[first + k], params.rangeOffset)
        && m.angleMin + k as real * m.angleIncrement == 6.283185307179586 * (first + k - front) as real / n
        && m.angleMax == 6.283185307179586 * (last - front) as real / n
        && m.stamp + k as real * m.timeIncrement
           == wallTime + params.timeOffset + period / 2.0 + (first + k - front) as real * (period / n)
    {
      hide Steps.TimeOffset;
      StepsFrom(scanParams.steps, first, k);
      TimeFrom(scanParams.steps, first, last, first + k, scanParams.scanPeriod);
    }

    // The rest of the callback, once the window is settled.
    method Report(reply: ScanReply, wallTime: real)
      requires reply.Valid() && IsInt(scanParams.firstStep) && IsInt(scanParams.lastStep)
      modifies this`published, this`inArea, this`overread
      ensures overread <==> old(overread) || ReadsBeyond(reply, scanParams.lastStep)
      ensures !overread ==>
        if Publishes(AllMeters(params.rangeOffset, reply.ranges), scanParams.firstStep, scanParams.lastStep) then
          && published == old(published) + [Message(reply, wallTime)]
          && |inArea| == |old(inArea)| + 1 && inArea[..|old(inArea)|] == old(inArea)
          && AreAllViolations(inArea[|old(inArea)|], reply)
        else
          published == old(published) && inArea == old(inArea)
    {
      hide AllMeters, AreViolations, AnyFinite, Overreads, Unsigned, SafetyArea;
      UnsignedLength(scanParams.lastStep, |reply.ranges|);
      var stamp := wallTime + params.timeOffset + scanParams.angularTimeOffset;
      var first, last := scanParams.firstStep, scanParams.lastStep;
      if |reply.ranges| <= Unsigned(last) {
        return;
      }
      var area := SafetyArea(reply.areaNumber);
      var ranges, violations, anyFinite, beyond := Collect(reply, first, last, params.rangeOffset, area);
      overread := overread || beyond;
      if beyond || !anyFinite {
        return;
      }
      var intensities := [];
      if reply.intensities.Some? {
        intensities := reply.intensities.value[first..last + 1];
      }
      published := published + [LaserScan(
        stamp, scanParams.angleMin, scanParams.angleMax, scanParams.angleIncrement, scanParams.timeIncrement,
        ranges, intensities)];
      inArea := inArea + [violations];
    }
  }

  // ----- what the message says -----

  // A multi-echo reply has 2161 readings and a profile 1081: one finite reading in the
  // second half is enough to read beyond the profile.
  lemma MultiEchoOverreads(reply: ScanReply, rangeOffset: real, area: seq<Reading>, index: nat)
    requires |reply.ranges| == RANGES_MULTIECHO && |area| == RANGES && RANGES <= index < RANGES_MULTIECHO
    requires 0 < reply.ranges[index] < 0xFFFC
    ensures Overreads(AllMeters(rangeOffset, reply.ranges), area)
  {
    assert AllMeters(rangeOffset, reply.ranges)[index].Some?;
  }

  // The list of violations is determined by the readings and the area.
  lemma {:induction false} ViolationsUnique(v: seq<Violation>, w: seq<Violation>,
                                            ranges: seq<Reading>, area: seq<Reading>)
    requires AreViolations(v, ranges, area) && AreViolations(w, ranges, area)
    ensures v == w
    decreases |ranges|
  {
    hide AreViolations;
    if ranges == [] {
      NoViolations(v, area);
      NoViolations(w, area);
    } else {
      var n := |ranges| - 1;
      LastViolation(v, ranges, area);
      LastViolation(w, ranges, area);
      ViolationsUnique(Before(v, n), Before(w, n), ranges[..n], area);
    }
  }

  function Before(v: seq<Violation>, n: nat): seq<Violation>
  {
    if v != [] && v[|v| - 1].0 == n then v[..|v| - 1] else v
  }

  // The last place of an ordered list holds the greatest index.
  lemma LastIndex(v: seq<Violation>, n: nat)
    requires Ordered(v) && forall j :: 0 <= j < |v| ==> v[j].0 <= n
    ensures Lists(v, n) <==> v != [] && v[|v| - 1].0 == n
    ensures forall j :: 0 <= j < |Before(v, n)| ==> Before(v, n)[j].0 < n
    ensures forall i :: Lists(v, i) && i != n ==> Lists(Before(v, n), i)
  {
  }

  lemma BeforeIs(v: seq<Violation>, n: nat)
    ensures v == Before(v, n) + if v != [] && v[|v| - 1].0 == n then [v[|v| - 1]] else []
    ensures Ordered(v) ==> Ordered(Before(v, n))
    ensures forall j :: 0 <= j < |Before(v, n)| ==> Before(v, n)[j] == v[j]
  {
  }

  lemma LastViolation(v: seq<Violation>, ranges: seq<Reading>, area: seq<Reading>)
    requires ranges != [] && AreViolations(v, ranges, area)
    ensures var n := |ranges| - 1;
      && AreViolations(Before(v, n), ranges[..n], area)
      && v == Before(v, n) + if Violates(ranges, area, n) then [(n, ranges[n].value)] else []
  {
    hide Violates, Lists, Before, Ordered;
    var n := |ranges| - 1;
    InRange(v, ranges, area);
    LastIndex(v, n);
    BeforeIs(v, n);
    ViolatesPrefix(ranges, area, n);
    assert ranges[..n + 1] == ranges;
  }

  lemma InRange(v: seq<Violation>, ranges: seq<Reading>, area: seq<Reading>)
    requires AllViolate(v, ranges, area)
    ensures forall j :: 0 <= j < |v| ==> v[j].0 < |ranges|
  {
  }

  // Reading k of a published message is the reply's reading of step first + k; its angle,
  // counted from the message's angle_min, is that step's angle, and the last one is at
  // angle_max; its time, counted from the message's stamp, does not depend on the window.
  lemma MessageGeometry(s: Steps, angleMin: real, angleMax: real, period: real, all: seq<Reading>, k: nat)
    requires s.Valid()
    requires var (first, last) := s.Window(angleMin, angleMax);
      Publishes(all, first, last) && k < |InView(all, first, last)|
    ensures var (first, last) := s.Window(angleMin, angleMax);
      && |InView(all, first, last)| == last - first + 1
      && InView(all, first, last)[k] == all[first + k]
      && s.Step2Angle(first) + k as real * s.Increment() == s.Step2Angle(first + k)
      && s.Step2Angle(first) + (last - first) as real * s.Increment() == s.Step2Angle(last)
      && s.TimeOffset(first, last, period) + k as real * (period / s.resolution as real)
         == period / 2.0 + (first + k - s.front) as real * (period / s.resolution as real)
  {
    hide Steps.Window, AnyFinite, Steps.Increment, Steps.Step2Angle, Steps.TimeOffset;
    var (first, last) := s.Window(angleMin, angleMax);
    StepsFrom(s, first, k);
    StepsFrom(s, first, last - first);
    assert first + (last - first) == last;
    TimeOfStep(s, angleMin, angleMax, first + k, period);
  }

  lemma StepsFrom(s: Steps, first: int, k: nat)
    requires s.resolution > 0
    ensures s.Step2Angle(first) + k as real * s.Increment() == s.Step2Angle(first + k)
  {
  }
}
