// ScanParameters: from angles to the steps of a scan and back. Doubles are exact reals, and
// conversions to int do not overflow.
module ScanParameters {
  const PI := 3.141592653589793

  function Ceiling(x: real): int { -(-x).Floor }

  // Rounding away from zero.
  function Outward(x: real): int
  {
    if x < 0.0 then x.Floor else Ceiling(x)
  }

  function Min(x: int, y: int): int { if x < y then x else y }
  function Max(x: int, y: int): int { if x > y then x else y }
  function Abs(x: real): real { if x < 0.0 then -x else x }

  datatype PPReply = PPReply(
    minDistance: int, maxDistance: int, angularResolution: int,
    firstStep: int, lastStep: int, frontDataStep: int, rpm: int)

  // The steps a lidar can measure; front is the step straight ahead, and resolution the
  // number of steps of a full circle.
  datatype Steps = Steps(firstLimit: int, lastLimit: int, front: int, resolution: int)
  {
    predicate Valid() { firstLimit < lastLimit && resolution > 0 }

    // An angle as a number of steps from the front.
    function Ticks(angle: real): real
    {
      resolution as real * angle / (2.0 * PI)
    }

    function Angle2Step(angle: real): int
    {
      Min(Max(firstLimit, Outward(Ticks(angle)) + front), lastLimit)
    }

    function Step2Angle(step: int): real
      requires resolution != 0
    {
      2.0 * PI * (step - front) as real / resolution as real
    }

    function Increment(): real
      requires resolution != 0
    {
      2.0 * PI / resolution as real
    }

    // The first and the last step of a scan asked for by two angles.
    function Window(angleMin: real, angleMax: real): (int, int)
    {
      var first, last := Angle2Step(angleMin), Angle2Step(angleMax);
      if first == last then
        if first == firstLimit then (first, last + 1) else (first - 1, last)
      else if last < first then (last, first)
      else (first, last)
    }

    // When a scan starts, in seconds after the beam passes the rear of the device.
    function TimeOffset(first: int, last: int, period: real): real
      requires resolution != 0
    {
      var angle := Step2Angle(if first == 0 && last == 0 then firstLimit else first);
      (angle + PI) / (2.0 * PI) * period
    }
  }

  class ScanParameters {
    var angularTimeOffset: real
    var angleIncrement: real
    var timeIncrement: real
    var rangeMin: real
    var rangeMax: real
    var scanPeriod: real
    var angleMin: real
    var angleMax: real
    var firstStep: int
    var lastStep: int
    var angleMinLimit: real
    var angleMaxLimit: real
    var steps: Steps
    var rpm: int

    // What does not change with the window.
    ghost predicate Valid()
      reads this
    {
      && steps.resolution != 0 && rpm != 0
      && angleMinLimit == steps.Step2Angle(steps.firstLimit)
      && angleMaxLimit == steps.Step2Angle(steps.lastLimit)
      && scanPeriod == 60.0 / rpm as real
      && angleIncrement == steps.Increment()
      && timeIncrement == scanPeriod / steps.resolution as real
    }

    // The window and all that goes with it.
    ghost predicate Shows(first: int, last: int)
      requires Valid()
      reads this
    {
      && firstStep == first && lastStep == last
      && angleMin == steps.Step2Angle(first) && angleMax == steps.Step2Angle(last)
      && angularTimeOffset == steps.TimeOffset(first, last, scanPeriod)
    }

    constructor FromMessage(reply: PPReply)
      requires reply.angularResolution != 0 && reply.rpm != 0
      ensures Valid()
      ensures steps == Steps(reply.firstStep, reply.lastStep, reply.frontDataStep, reply.angularResolution)
      ensures rpm == reply.rpm
      ensures rangeMin == reply.minDistance as real / 1000.0 && rangeMax == reply.maxDistance as real / 1000.0
      ensures var (first, last) := steps.Window(angleMinLimit, angleMaxLimit); Shows(first, last)
      ensures steps.Valid() ==> Shows(reply.firstStep, reply.lastStep)
    {
      var s := Steps(reply.firstStep, reply.lastStep, reply.frontDataStep, reply.angularResolution);
      steps, rpm := s, reply.rpm;
      rangeMin, rangeMax := reply.minDistance as real / 1000.0, reply.maxDistance as real / 1000.0;
      angleMinLimit, angleMaxLimit := s.Step2Angle(s.firstLimit), s.Step2Angle(s.lastLimit);
      scanPeriod := 60.0 / reply.rpm as real;
      angleIncrement := 2.0 * PI / reply.angularResolution as real;
      timeIncrement := 60.0 / reply.rpm as real / reply.angularResolution as real;
      new;
      if steps.Valid() {
        Inverse(steps, steps.firstLimit);
        Inverse(steps, steps.lastLimit);
      }
      SetAngleLimits(angleMinLimit, angleMaxLimit);
    }

    method SetAngleLimits(newAngleMin: real, newAngleMax: real)
      requires Valid()
      modifies this`firstStep, this`lastStep, this`angleMin, this`angleMax, this`angularTimeOffset
      ensures Valid()
      ensures var (first, last) := steps.Window(newAngleMin, newAngleMax); Shows(first, last)
    {
      var first := steps.Angle2Step(newAngleMin);
      var last := steps.Angle2Step(newAngleMax);
      if first == last {
        if first == steps.firstLimit {
          last := last + 1;
        } else {
          first := first - 1;
        }
      }
      if last < first {
        last, first := first, last;
      }
      firstStep, lastStep := first, last;
      angleMin, angleMax := steps.Step2Angle(first), steps.Step2Angle(last);
      angularTimeOffset := CalculateTimeOffset();
    }

    method CalculateTimeOffset() returns (offset: real)
      requires Valid() && angleMin == steps.Step2Angle(firstStep)
      ensures offset == steps.TimeOffset(firstStep, lastStep, scanPeriod)
      ensures var angle := if firstStep == 0 && lastStep == 0 then angleMinLimit else angleMin;
        offset == (angle + 3.141592653589793) / 6.283185307179586 * scanPeriod
    {
      var circleFraction := 0.0;
      if firstStep == 0 && lastStep == 0 {
        circleFraction := (angleMinLimit + PI) / (2.0 * PI);
      } else {
        circleFraction := (angleMin + PI) / (2.0 * PI);
      }
      return circleFraction * scanPeriod;
    }
  }

  // ----- angles and ticks -----

  lemma DivideBy(x: real, y: real)
    requires y > 0.0
    ensures x / y * y == x
  {
  }

  // Comparing an angle with a step's angle is comparing its ticks with the step.
  lemma Compare(s: Steps, step: int, angle: real)
    requires s.resolution > 0
    ensures s.Step2Angle(step) <= angle <==> (step - s.front) as real <= s.Ticks(angle)
    ensures s.Step2Angle(step) >= angle <==> (step - s.front) as real >= s.Ticks(angle)
  {
  }

  lemma TicksOrdered(s: Steps, x: real, y: real)
    requires s.resolution > 0 && x <= y
    ensures s.Ticks(x) <= s.Ticks(y)
  {
  }

  lemma OutwardMonotone(x: real, y: real)
    requires x <= y
    ensures Outward(x) <= Outward(y)
  {
  }

  // ----- steps -----

  lemma Monotone(s: Steps, x: real, y: real)
    requires s.resolution > 0 && x <= y
    ensures s.Angle2Step(x) <= s.Angle2Step(y)
  {
    TicksOrdered(s, x, y);
    OutwardMonotone(s.Ticks(x), s.Ticks(y));
  }

  // angle2step undoes step2angle on the steps within the limits.
  lemma Inverse(s: Steps, step: int)
    requires s.resolution > 0 && s.firstLimit <= step <= s.lastLimit
    ensures s.Angle2Step(s.Step2Angle(step)) == step
  {
  }

  // Whatever is asked for, the window is a proper one within the limits, exactly when the
  // limits themselves are proper.
  lemma WindowWithinLimits(s: Steps, angleMin: real, angleMax: real)
    ensures var (first, last) := s.Window(angleMin, angleMax);
      s.firstLimit <= first < last <= s.lastLimit <==> s.firstLimit < s.lastLimit
  {
  }

  // The window is the smallest one with more than one step that has the steps of both
  // angles; one that is added comes before, unless the limit is in the way.
  lemma SmallestWindow(s: Steps, angleMin: real, angleMax: real)
    ensures var one, other, w := s.Angle2Step(angleMin), s.Angle2Step(angleMax), s.Window(angleMin, angleMax);
      && w.0 <= one <= w.1 && w.0 <= other <= w.1
      && (one < other ==> w == (one, other))
      && (other < one ==> w == (other, one))
      && (one == other ==> w.1 == w.0 + 1 && (w.0 == one <==> one == s.firstLimit))
  {
  }

  // Asking for the angles a window has changes nothing.
  lemma Reapply(s: Steps, angleMin: real, angleMax: real)
    requires s.Valid()
    ensures var (first, last) := s.Window(angleMin, angleMax);
      s.Window(s.Step2Angle(first), s.Step2Angle(last)) == (first, last)
  {
    var (first, last) := s.Window(angleMin, angleMax);
    WindowWithinLimits(s, angleMin, angleMax);
    Inverse(s, first);
    Inverse(s, last);
  }

  // ----- rounding -----

  // When the rounding keeps an angle inside: the step chosen for it lies at or before the
  // angle exactly for angles not ahead of the front and for angles on a step, and at or
  // after it exactly for angles not behind the front and for angles on a step.
  lemma RoundsOutward(s: Steps, angle: real)
    requires s.resolution > 0
    requires s.firstLimit <= Outward(s.Ticks(angle)) + s.front <= s.lastLimit
    ensures var t := s.Ticks(angle);
      && (s.Step2Angle(s.Angle2Step(angle)) <= angle <==> t <= 0.0 || t == t.Floor as real)
      && (s.Step2Angle(s.Angle2Step(angle)) >= angle <==> t >= 0.0 || t == t.Floor as real)
  {
    Compare(s, s.Angle2Step(angle), angle);
  }

  // How far a step is from an angle, both counted from the front.
  function Distance(ticks: real, step: int): real
  {
    Abs(step as real - ticks)
  }

  // The part of a step that an angle lies beyond the last step passed from the front.
  function Beyond(ticks: real): real
  {
    Abs(ticks) - Abs(ticks).Floor as real
  }

  lemma OutwardDistance(ticks: real)
    ensures Distance(ticks, Outward(ticks)) == if Beyond(ticks) == 0.0 then 0.0 else 1.0 - Beyond(ticks)
    ensures 0.0 <= Beyond(ticks) < 1.0
    ensures Distance(ticks, if ticks < 0.0 then -Abs(ticks).Floor else Abs(ticks).Floor) == Beyond(ticks)
  {
    var passed := Abs(ticks).Floor;
    assert passed as real <= Abs(ticks) < passed as real + 1.0;
    if ticks < 0.0 {
      assert Outward(ticks) == if Beyond(ticks) == 0.0 then -passed else -passed - 1;
    } else {
      assert Outward(ticks) == if Beyond(ticks) == 0.0 then passed else passed + 1;
    }
  }

  // The step an angle is rounded to, and the last one passed from the front.
  function Rounded(s: Steps, angle: real): int
  {
    Outward(s.Ticks(angle)) + s.front
  }

  function Passed(s: Steps, angle: real): int
  {
    var t := s.Ticks(angle);
    (if t < 0.0 then -Abs(t).Floor else Abs(t).Floor) + s.front
  }

  predicate Within(s: Steps, step: int)
  {
    s.firstLimit <= step <= s.lastLimit
  }

  // When rounding outward, within the limits, makes a closest step.
  predicate RoundsToClosest(s: Steps, angle: real)
  {
    var beyond := Beyond(s.Ticks(angle));
    !Within(s, Rounded(s, angle)) || !Within(s, Passed(s, angle)) || beyond == 0.0 || beyond >= 0.5
  }

  function Gap(s: Steps, angle: real, step: int): real
    requires s.resolution > 0
  {
    Abs(s.Step2Angle(step) - angle)
  }

  // No step within the limits is closer to the angle.
  ghost predicate IsClosest(s: Steps, angle: real, step: int)
    requires s.resolution > 0
  {
    forall other :: Within(s, other) ==> Gap(s, angle, step) <= Gap(s, angle, other)
  }

  lemma GapInTicks(s: Steps, angle: real, step: int)
    requires s.resolution > 0
    ensures Gap(s, angle, step) == Distance(s.Ticks(angle), step - s.front) * s.Increment()
  {
    var r, k, t := s.resolution as real, (step - s.front) as real, s.Ticks(angle);
    DivideBy(2.0 * PI * k, r);
    DivideBy(2.0 * PI, r);
    assert (s.Step2Angle(step) - angle) * r == 2.0 * PI * (k - t);
    assert s.Step2Angle(step) - angle == (k - t) * s.Increment();
  }

  lemma CompareGaps(s: Steps, angle: real, one: int, other: int)
    requires s.resolution > 0
    ensures Gap(s, angle, one) <= Gap(s, angle, other) <==>
      Distance(s.Ticks(angle), one - s.front) <= Distance(s.Ticks(angle), other - s.front)
  {
    hide Distance, Gap, Steps.Increment, Steps.Ticks;
    GapInTicks(s, angle, one);
    GapInTicks(s, angle, other);
    var t := s.Ticks(angle);
    assert s.Increment() > 0.0 by { IncrementPositive(s); }
    Ordered(Distance(t, one - s.front), Distance(t, other - s.front), s.Increment());
  }

  lemma IncrementPositive(s: Steps)
    requires s.resolution > 0
    ensures s.Increment() > 0.0
  {
  }

  lemma Ordered(x: real, y: real, i: real)
    requires i > 0.0
    ensures x <= y <==> x * i <= y * i
  {
  }

  // Of two neighbours around t, near is at least as close, or only one is within lo..hi.
  lemma Nearest(t: real, near: int, far: int, lo: int, hi: int, other: int)
    requires lo <= other <= hi
    requires (far == near && near as real == t)
             || (far == near - 1 && far as real <= t <= near as real)
             || (far == near + 1 && near as real <= t <= far as real)
    requires near < lo || hi < near || far < lo || hi < far || Abs(near as real - t) <= Abs(far as real - t)
    ensures Abs(Min(Max(lo, near), hi) as real - t) <= Abs(other as real - t)
  {
    if near < lo {
      assert t <= lo as real <= other as real;
    } else if hi < near {
      assert other as real <= hi as real <= t;
    } else if far < near {
      assert other >= near || (other <= far && lo <= far);
    } else {
      assert other <= near || (other >= far && far <= hi);
    }
  }

  lemma NoCloser(s: Steps, angle: real, other: int)
    requires s.Valid() && RoundsToClosest(s, angle) && Within(s, other)
    ensures Distance(s.Ticks(angle), s.Angle2Step(angle) - s.front) <= Distance(s.Ticks(angle), other - s.front)
  {
    hide Steps.Ticks, Outward, Beyond;
    var t := s.Ticks(angle);
    OutwardDistance(t);
    OutwardIs(t);
    Nearest(t, Outward(t), Passed(s, angle) - s.front, s.firstLimit - s.front, s.lastLimit - s.front, other - s.front);
  }

  lemma OutwardIs(ticks: real)
    ensures Abs(ticks).Floor as real <= Abs(ticks) < Abs(ticks).Floor as real + 1.0
    ensures var beyond := if Beyond(ticks) == 0.0 then 0 else 1;
      Outward(ticks) == if ticks < 0.0 then -Abs(ticks).Floor - beyond else Abs(ticks).Floor + beyond
  {
  }

  // angle2step promises the closest step. It gives one, among the steps within the limits,
  // exactly when the angle is on a step or at least half a step beyond the last one passed
  // from the front, or when only one of these two steps is within the limits, or none.
  lemma ClosestStep(s: Steps, angle: real)
    requires s.Valid()
    ensures IsClosest(s, angle, s.Angle2Step(angle)) <==> RoundsToClosest(s, angle)
  {
    hide Steps.Ticks, Outward, Distance, Beyond, Gap;
    if RoundsToClosest(s, angle) {
      forall other | Within(s, other) ensures Gap(s, angle, s.Angle2Step(angle)) <= Gap(s, angle, other) {
        NoCloser(s, angle, other);
        CompareGaps(s, angle, s.Angle2Step(angle), other);
      }
    } else {
      OutwardDistance(s.Ticks(angle));
      CompareGaps(s, angle, s.Angle2Step(angle), Passed(s, angle));
    }
  }

  // An angle a tenth of a step ahead of the front is given the next step, not the closest.
  lemma NotAlwaysClosest(s: Steps)
    requires s.resolution > 0 && s.firstLimit <= s.front && s.front + 1 <= s.lastLimit
    ensures var angle := 0.1 * s.Increment();
      s.Ticks(angle) == 0.1 && s.Angle2Step(angle) == s.front + 1 && !IsClosest(s, angle, s.Angle2Step(angle))
  {
    hide IsClosest;
    ClosestStep(s, 0.1 * s.Increment());
    DivideBy(2.0 * PI, s.resolution as real);
    assert s.Ticks(0.1 * s.Increment()) == 0.1;
  }

  // A window around the front covers every angle of the request that the lidar can reach.
  lemma Covers(s: Steps, angleMin: real, angleMax: real, angle: real)
    requires s.Valid() && s.firstLimit <= s.front <= s.lastLimit
    requires angleMin <= 0.0 <= angleMax && angleMin <= angle <= angleMax
    requires s.Step2Angle(s.firstLimit) <= angle <= s.Step2Angle(s.lastLimit)
    ensures var (first, last) := s.Window(angleMin, angleMax);
      s.Step2Angle(first) <= angle <= s.Step2Angle(last)
  {
    var (first, last) := s.Window(angleMin, angleMax);
    Around(s, angleMin, angleMax);
    Compare(s, s.firstLimit, angle);
    Compare(s, s.lastLimit, angle);
    Compare(s, first, angle);
    Compare(s, last, angle);
    TicksOrdered(s, angleMin, angle);
    TicksOrdered(s, angle, angleMax);
  }

  // The steps of a request around the front, before the repair of an empty window.
  lemma Around(s: Steps, angleMin: real, angleMax: real)
    requires s.Valid() && s.firstLimit <= s.front <= s.lastLimit && angleMin <= 0.0 <= angleMax
    ensures s.Ticks(angleMin) <= 0.0 <= s.Ticks(angleMax)
    ensures s.Angle2Step(angleMin) == Max(s.firstLimit, s.Ticks(angleMin).Floor + s.front) <= s.front
    ensures s.Angle2Step(angleMax) == Min(s.lastLimit, Ceiling(s.Ticks(angleMax)) + s.front) >= s.front
    ensures s.Window(angleMin, angleMax).0 <= s.Angle2Step(angleMin)
    ensures s.Window(angleMin, angleMax).1 >= s.Angle2Step(angleMax)
  {
  }

  // It overshoots a requested end that the lidar can reach by less than one increment,
  // unless both ends were given the same step.
  lemma Overshoot(s: Steps, angleMin: real, angleMax: real)
    requires s.Valid() && s.firstLimit <= s.front <= s.lastLimit
    requires angleMin <= 0.0 <= angleMax && s.Angle2Step(angleMin) != s.Angle2Step(angleMax)
    ensures var (first, last) := s.Window(angleMin, angleMax);
      && (s.Step2Angle(s.firstLimit) <= angleMin ==> angleMin - s.Step2Angle(first) < s.Increment())
      && (angleMax <= s.Step2Angle(s.lastLimit) ==> s.Step2Angle(last) - angleMax < s.Increment())
  {
    var (first, last) := s.Window(angleMin, angleMax);
    Around(s, angleMin, angleMax);
    Compare(s, s.firstLimit, angleMin);
    Compare(s, s.lastLimit, angleMax);
    Compare(s, first + 1, angleMin);
    Compare(s, last - 1, angleMax);
    NextStep(s, first);
    NextStep(s, last - 1);
  }

  lemma NextStep(s: Steps, step: int)
    requires s.resolution > 0
    ensures s.Step2Angle(step + 1) == s.Step2Angle(step) + s.Increment()
  {
  }

  // ----- time -----

  // The time of a step does not depend on the window it is seen through: the offset of the
  // window's first step and one time increment for each step after it.
  lemma TimeOfStep(s: Steps, angleMin: real, angleMax: real, step: int, period: real)
    requires s.Valid()
    ensures var (first, last) := s.Window(angleMin, angleMax);
      s.TimeOffset(first, last, period) + (step - first) as real * (period / s.resolution as real)
      == period / 2.0 + (step - s.front) as real * (period / s.resolution as real)
  {
    hide Steps.Window, Steps.TimeOffset;
    WindowWithinLimits(s, angleMin, angleMax);
    var (first, last) := s.Window(angleMin, angleMax);
    TimeFrom(s, first, last, step, period);
  }

  lemma TimeFrom(s: Steps, first: int, last: int, step: int, period: real)
    requires s.resolution > 0 && first < last
    ensures s.TimeOffset(first, last, period) + (step - first) as real * (period / s.resolution as real)
         == period / 2.0 + (step - s.front) as real * (period / s.resolution as real)
  {
    var r, d := s.resolution as real, (first - s.front) as real;
    Fraction(d, r);
    assert s.TimeOffset(first, last, period) == (d / r + 0.5) * period;
    Spread(d, r, period);
    Spread((step - first) as real, r, period);
    Spread((step - s.front) as real, r, period);
    assert (step - s.front) as real / r == (step - first) as real / r + d / r by {
      AddFractions((step - first) as real, d, r);
    }
  }

  lemma Fraction(d: real, r: real)
    requires r > 0.0
    ensures (2.0 * PI * d / r + PI) / (2.0 * PI) == d / r + 0.5
  {
    var q := d / r;
    DivideBy(d, r);
    assert 2.0 * PI * d == 2.0 * PI * q * r;
    assert 2.0 * PI * d / r == 2.0 * PI * q;
  }

  lemma Spread(d: real, r: real, period: real)
    requires r > 0.0
    ensures d * (period / r) == d / r * period
  {
  }

  lemma AddFractions(x: real, y: real, r: real)
    requires r > 0.0
    ensures (x + y) / r == x / r + y / r
  {
  }
}
