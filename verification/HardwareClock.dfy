// URGCWrapper::getSynchronizedTime: scan stamps from the lidar's 24-bit millisecond counter
// and a moving average of its offset to the system clock. Doubles are exact reals.
module HardwareClock {
  const WORD := 0x1_0000_0000
  const TICKS := 0x100_0000
  const COUNTS := 0x1_0000_0000_0000_0000
  const ALPHA := 0.01
  const SETTLED := 100
  const WARP := 0.1

  function Abs(x: real): real { if x < 0.0 then -x else x }

  datatype Sample = Sample(timeStamp: int, system: real)

  datatype Clock = Clock(hardware: real, last: int, adj: real, count: nat)

  function Start(): Clock { Clock(0.0, 0, 0.0, 0) }

  // The difference of two time stamps, cut to 32 bits and then to 24.
  function Elapsed(last: int, timeStamp: int): nat
  {
    ((timeStamp % WORD - last % WORD) % WORD) % TICKS
  }

  function Advance(c: Clock, s: Sample): Clock
  {
    var hardware := c.hardware + Elapsed(c.last, s.timeStamp) as real / 1000.0;
    var current := s.system - hardware;
    Clock(hardware, s.timeStamp,
          if c.count > 0 then ALPHA * current + (1.0 - ALPHA) * c.adj else current,
          (c.count + 1) % COUNTS)
  }

  predicate Synchronised(c: Clock) { c.count > SETTLED }

  // The time error is large: the average and the counter are reset.
  predicate Warped(c: Clock, s: Sample)
  {
    var n := Advance(c, s);
    Synchronised(n) && Abs(n.hardware + n.adj - s.system) > WARP
  }

  function Step(c: Clock, s: Sample): Clock
  {
    var n := Advance(c, s);
    if Warped(c, s) then Clock(0.0, 0, n.adj, 0) else n
  }

  function Stamp(c: Clock, s: Sample): real
  {
    var n := Advance(c, s);
    if Synchronised(n) && !Warped(c, s) then n.hardware + n.adj else s.system
  }

  // One sample, in plain numbers: the counter is cut to 24 bits, the average takes up one
  // part in a hundred of each new offset, and from the 101st sample on the stamp is their
  // sum, unless it is more than 0.1 s away from the system's.
  lemma StepMeaning(c: Clock, s: Sample)
    ensures var hardware := c.hardware + ((s.timeStamp - c.last) % 0x100_0000) as real / 1000.0;
      var offset := s.system - hardware;
      var adj := if c.count == 0 then offset else 0.01 * offset + 0.99 * c.adj;
      var count := (c.count + 1) % 0x1_0000_0000_0000_0000;
      var gap := hardware + adj - s.system;
      && (count <= 100 ==> Stamp(c, s) == s.system && Step(c, s) == Clock(hardware, s.timeStamp, adj, count))
      && (count > 100 && -0.1 <= gap <= 0.1 ==>
            Stamp(c, s) == hardware + adj && Step(c, s) == Clock(hardware, s.timeStamp, adj, count))
      && (count > 100 && !(-0.1 <= gap <= 0.1) ==>
            Stamp(c, s) == s.system && Step(c, s) == Clock(0.0, 0, adj, 0))
  {
    ElapsedModulo(c.last, s.timeStamp);
    hide Elapsed;
  }

  function Run(c: Clock, samples: seq<Sample>): Clock
  {
    if samples == [] then c
    else Step(Run(c, samples[..|samples| - 1]), samples[|samples| - 1])
  }

  lemma RunLast(c: Clock, samples: seq<Sample>, i: nat)
    requires i < |samples|
    ensures Run(c, samples[..i + 1]) == Step(Run(c, samples[..i]), samples[i])
  {
    hide Step;
    assert samples[..i + 1][..i] == samples[..i];
  }

  lemma RunNone(c: Clock, samples: seq<Sample>)
    ensures Run(c, samples[..0]) == c
  {
  }

  class URGCWrapper {
    var hardwareClock: real
    var lastHardwareTimeStamp: int
    var hardwareClockAdj: real
    var adjCount: nat

    function State(): Clock
      reads this
    {
      Clock(hardwareClock, lastHardwareTimeStamp, hardwareClockAdj, adjCount)
    }

    constructor ()
      ensures State() == Start()
    {
      hardwareClock, lastHardwareTimeStamp, hardwareClockAdj, adjCount := 0.0, 0, 0.0, 0;
    }

    method GetSynchronizedTime(timeStamp: int, systemTime: real) returns (stamp: real)
      modifies this
      ensures State() == Step(old(State()), Sample(timeStamp, systemTime))
      ensures stamp == Stamp(old(State()), Sample(timeStamp, systemTime))
    {
      stamp := systemTime;
      var t1 := timeStamp % WORD;
      var t0 := lastHardwareTimeStamp % WORD;
      var delta := ((t1 - t0) % WORD % TICKS) as real / 1000.0;
      hardwareClock := hardwareClock + delta;
      var current := stamp - hardwareClock;
      if adjCount > 0 {
        hardwareClockAdj := ALPHA * current + (1.0 - ALPHA) * hardwareClockAdj;
      } else {
        hardwareClockAdj := current;
      }
      adjCount := (adjCount + 1) % COUNTS;
      lastHardwareTimeStamp := timeStamp;
      if adjCount > SETTLED {
        stamp := hardwareClock + hardwareClockAdj;
        if Abs(stamp - systemTime) > WARP {
          adjCount, hardwareClock, lastHardwareTimeStamp := 0, 0.0, 0;
          stamp := systemTime;
        }
      }
    }
  }

  // ----- the counter -----

  lemma ElapsedModulo(last: int, timeStamp: int)
    ensures Elapsed(last, timeStamp) == (timeStamp - last) % TICKS
  {
    var d := timeStamp % WORD - last % WORD;
    ModuloOf(d, WORD, 256);
    ModuloOf(timeStamp, WORD, 256);
    ModuloOf(last, WORD, 256);
    var k := timeStamp / WORD - last / WORD;
    assert timeStamp - last == d + k * 256 * TICKS;
    AddMultiple(d, k * 256, TICKS);
  }

  // A residue modulo a multiple of TICKS keeps the residue modulo TICKS.
  lemma ModuloOf(x: int, n: int, m: int)
    requires n == m * TICKS && m > 0
    ensures x % n % TICKS == x % TICKS
  {
    var q := x / n;
    assert x == q * n + x % n;
    assert q * n == q * m * TICKS;
    AddMultiple(x % n, q * m, TICKS);
  }

  lemma AddMultiple(x: int, k: int, n: int)
    requires n > 0
    ensures (x + k * n) % n == x % n
  {
    var y := x + k * n;
    var d := y / n - k - x / n;
    assert y == y / n * n + y % n;
    assert x == x / n * n + x % n;
    assert d * n == x % n - y % n by {
      assert d * n == y / n * n - k * n - x / n * n;
    }
    assert d > 0 ==> d * n >= n;
    assert d < 0 ==> d * n <= -n;
  }

  function Millis(c: Clock): int { (c.hardware * 1000.0).Floor }

  // The clock is a whole number of milliseconds that agrees with the counter's last reading.
  predicate Counting(c: Clock)
  {
    c.hardware * 1000.0 == Millis(c) as real && Millis(c) >= 0 && (Millis(c) - c.last) % TICKS == 0
  }

  lemma Advanced(c: Clock, s: Sample)
    requires Counting(c)
    ensures Counting(Advance(c, s))
    ensures Millis(Advance(c, s)) == Millis(c) + (s.timeStamp - c.last) % TICKS
  {
    ElapsedModulo(c.last, s.timeStamp);
    var e := (s.timeStamp - c.last) % TICKS;
    var n := Advance(c, s);
    assert n.hardware * 1000.0 == Millis(c) as real + e as real;
    assert Millis(n) == Millis(c) + e;
    var q := (s.timeStamp - c.last) / TICKS;
    assert s.timeStamp - c.last == q * TICKS + e;
    assert Millis(n) - s.timeStamp == Millis(c) - c.last + (-q) * TICKS;
    AddMultiple(Millis(c) - c.last, -q, TICKS);
  }

  // In every reachable state, resets included, hardware_clock_ * 1000 is a whole number
  // congruent to last_hardware_time_stamp_ modulo 2^24.
  lemma {:induction false} CounterInvariant(samples: seq<Sample>)
    ensures Counting(Run(Start(), samples))
  {
    if samples != [] {
      var before := samples[..|samples| - 1];
      CounterInvariant(before);
      Advanced(Run(Start(), before), samples[|samples| - 1]);
    }
  }

  // The counter reads the device's true milliseconds modulo 2^24, and samples come less
  // than 2^24 ms apart.
  ghost predicate Reads(samples: seq<Sample>, truth: seq<int>)
  {
    && |truth| == |samples|
    && (forall i :: 0 <= i < |truth| ==> (samples[i].timeStamp - truth[i]) % TICKS == 0)
    && forall i :: 0 < i < |truth| ==> 0 <= truth[i] - truth[i - 1] < TICKS
  }

  ghost predicate NoReset(c: Clock, samples: seq<Sample>, i: nat, j: nat)
    requires j <= |samples|
  {
    forall k :: i <= k < j ==> !Warped(Run(c, samples[..k]), samples[k])
  }

  lemma StepForward(c: Clock, s: Sample)
    requires !Warped(c, s)
    ensures Step(c, s) == Advance(c, s) && Step(c, s).last == s.timeStamp
    ensures Step(c, s).hardware == c.hardware + Elapsed(c.last, s.timeStamp) as real / 1000.0
  {
    hide Elapsed;
  }

  lemma TrueStepAt(samples: seq<Sample>, truth: seq<int>, j: nat)
    requires Reads(samples, truth) && 2 <= j <= |samples|
    requires !Warped(Run(Start(), samples[..j - 2]), samples[j - 2])
    requires !Warped(Run(Start(), samples[..j - 1]), samples[j - 1])
    ensures Run(Start(), samples[..j]).hardware
         == Run(Start(), samples[..j - 1]).hardware + (truth[j - 1] - truth[j - 2]) as real / 1000.0
  {
    hide Run, Step, Warped, Elapsed;
    RunLast(Start(), samples, j - 2);
    RunLast(Start(), samples, j - 1);
    StepForward(Run(Start(), samples[..j - 2]), samples[j - 2]);
    StepForward(Run(Start(), samples[..j - 1]), samples[j - 1]);
    TrueStep(samples[j - 2].timeStamp, samples[j - 1].timeStamp, truth[j - 2], truth[j - 1]);
  }

  // Between resets the clock advances by exactly the time that has passed, over any number
  // of wrap-arounds of the counter.
  lemma {:induction false} TrueTime(samples: seq<Sample>, truth: seq<int>, i: nat, j: nat)
    requires Reads(samples, truth) && 0 < i <= j <= |samples|
    requires NoReset(Start(), samples, i - 1, j)
    ensures Run(Start(), samples[..j]).hardware - Run(Start(), samples[..i]).hardware
         == (truth[j - 1] - truth[i - 1]) as real / 1000.0
    decreases j
  {
    hide Run, Warped;
    if i < j {
      TrueTime(samples, truth, i, j - 1);
      TrueStepAt(samples, truth, j);
    }
  }

  lemma TrueStep(last: int, timeStamp: int, before: int, after: int)
    requires (last - before) % TICKS == 0 && (timeStamp - after) % TICKS == 0
    requires 0 <= after - before < TICKS
    ensures Elapsed(last, timeStamp) == after - before
  {
    ElapsedModulo(last, timeStamp);
    var k := (timeStamp - after) / TICKS - (last - before) / TICKS;
    assert timeStamp - last == after - before + k * TICKS;
    AddMultiple(after - before, k, TICKS);
  }

  // The samples since a start or a reset are counted.
  lemma {:induction false} CountsSamples(c: Clock, samples: seq<Sample>, n: nat)
    requires c.count == 0 && n <= |samples| < 0x1_0000_0000_0000_0000 && NoReset(c, samples, 0, n)
    ensures Run(c, samples[..n]).count == n
  {
    hide Run, Step, Warped;
    if n == 0 {
      RunNone(c, samples);
    } else {
      CountsSamples(c, samples, n - 1);
      RunLast(c, samples, n - 1);
      StepMeaning(Run(c, samples[..n - 1]), samples[n - 1]);
      StepForward(Run(c, samples[..n - 1]), samples[n - 1]);
    }
  }

  // A start or a reset is followed by 100 samples that do not reset the clock.
  lemma {:induction false} FirstHundred(c: Clock, samples: seq<Sample>, n: nat)
    requires c.count == 0 && n <= |samples| < 0x1_0000_0000_0000_0000 && n <= 100
    ensures NoReset(c, samples, 0, n)
  {
    hide Run, Step;
    if n > 0 {
      FirstHundred(c, samples, n - 1);
      CountsSamples(c, samples, n - 1);
      assert !Synchronised(Advance(Run(c, samples[..n - 1]), samples[n - 1]));
    }
  }

  // The first 100 stamps after a start or a reset are the system's. A later one, up to the
  // next reset, is the sum of the clock and its average and within 0.1 s of the system's, or
  // it is the system's and the clock starts again at 0.
  lemma StampSince(c: Clock, samples: seq<Sample>, i: nat)
    requires c.count == 0 && i < |samples| < 0x1_0000_0000_0000_0000 && NoReset(c, samples, 0, i)
    ensures var before, after := Run(c, samples[..i]), Run(c, samples[..i + 1]);
      var stamp := Stamp(before, samples[i]);
      && (i < 100 ==> stamp == samples[i].system && after.count == i + 1)
      && (i >= 100 ==>
            || (stamp == after.hardware + after.adj && -0.1 <= stamp - samples[i].system <= 0.1
                && after.count == i + 1)
            || (stamp == samples[i].system && after.hardware == 0.0 && after.last == 0 && after.count == 0))
  {
    hide Run, Step, Stamp;
    CountsSamples(c, samples, i);
    RunLast(c, samples, i);
    StepMeaning(Run(c, samples[..i]), samples[i]);
  }

  // ----- jitter -----

  function Offset(c: Clock, s: Sample): real
  {
    s.system - Advance(c, s).hardware
  }

  // When exactly a sample resets the clock.
  lemma WarpedWhen(c: Clock, s: Sample)
    requires c.count > 0
    ensures Warped(c, s) <==>
      (c.count + 1) % COUNTS > SETTLED && (1.0 - ALPHA) * Abs(c.adj - Offset(c, s)) > WARP
  {
  }

  // The bound on the change of the average from one synchronised stamp to the next.
  const JITTER := 0.001 / 0.99

  // One synchronised stamp after another moves as far as the hardware counter did, to
  // within 0.001 / 0.99 seconds.
  lemma JitterStep(c: Clock, s: Sample, t: Sample)
    requires Synchronised(Advance(c, s)) && !Warped(c, s)
    requires Synchronised(Advance(Step(c, s), t)) && !Warped(Step(c, s), t)
    ensures var ticks := Elapsed(s.timeStamp, t.timeStamp) as real / 1000.0;
      Abs(Stamp(Step(c, s), t) - Stamp(c, s) - ticks) <= JITTER
  {
  }

  // When exactly a stamp is later than the one before: the average must not lie ahead of
  // the new offset by a tenth of the counter's increment or more, in seconds by milliseconds.
  lemma StampLater(c: Clock, s: Sample, t: Sample)
    requires Synchronised(Advance(c, s)) && !Warped(c, s)
    requires Synchronised(Advance(Step(c, s), t)) && !Warped(Step(c, s), t)
    ensures Stamp(c, s) < Stamp(Step(c, s), t) <==>
      Step(c, s).adj - Offset(Step(c, s), t) < Elapsed(s.timeStamp, t.timeStamp) as real / 10.0
  {
    hide Elapsed;
    var n, current := Step(c, s), Offset(Step(c, s), t);
    assert Advance(n, t).adj - n.adj == ALPHA * (current - n.adj);
  }

  // A tracked sample is not far from the average.
  lemma AheadOfOffset(c: Clock, s: Sample)
    requires c.count > 0 && Synchronised(Advance(c, s)) && !Warped(c, s)
    ensures Abs(c.adj - Offset(c, s)) < 0.2
  {
    WarpedWhen(c, s);
  }

  ghost predicate Tracking(c: Clock, samples: seq<Sample>, i: nat, j: nat)
    requires j <= |samples|
  {
    forall k :: i <= k < j ==>
      var before := Run(c, samples[..k]);
      Synchronised(Advance(before, samples[k])) && !Warped(before, samples[k])
  }

  function StampAt(samples: seq<Sample>, i: nat): real
    requires i < |samples|
  {
    Stamp(Run(Start(), samples[..i]), samples[i])
  }

  // In every run, while the clock tracks and samples come at least 2 ms of the counter
  // apart, stamps increase strictly, each by the counter's increment to within JITTER.
  lemma {:induction false} StampsIncrease(samples: seq<Sample>, i: nat, j: nat)
    requires i < j < |samples| && Tracking(Start(), samples, i, j + 1)
    requires forall k :: i < k <= j ==> Elapsed(samples[k - 1].timeStamp, samples[k].timeStamp) >= 2
    ensures StampAt(samples, i) < StampAt(samples, j)
    ensures Abs(StampAt(samples, j) - StampAt(samples, j - 1)
                - Elapsed(samples[j - 1].timeStamp, samples[j].timeStamp) as real / 1000.0) <= JITTER
    decreases j
  {
    hide Advance, Elapsed, Warped, Stamp;
    var c := Run(Start(), samples[..j - 1]);
    assert samples[..j][..j - 1] == samples[..j - 1];
    assert Run(Start(), samples[..j]) == Step(c, samples[j - 1]);
    assert Synchronised(Advance(c, samples[j - 1])) && !Warped(c, samples[j - 1]);
    JitterStep(c, samples[j - 1], samples[j]);
    StampLater(c, samples[j - 1], samples[j]);
    AheadOfOffset(Run(Start(), samples[..j]), samples[j]);
    if i < j - 1 {
      StampsIncrease(samples, i, j - 1);
    }
  }

  // ----- resets -----

  ghost predicate Within(c: Clock, samples: seq<Sample>, lo: real, hi: real)
  {
    forall k :: 0 <= k < |samples| ==> lo <= Offset(Run(c, samples[..k]), samples[k]) <= hi
  }

  lemma StepWithin(c: Clock, s: Sample, lo: real, hi: real)
    requires c.count > 0 ==> lo <= c.adj <= hi
    requires lo <= Offset(c, s) <= hi && hi - lo <= WARP
    ensures !Warped(c, s)
    ensures lo <= Step(c, s).adj <= hi && Step(c, s).count == (c.count + 1) % COUNTS
  {
  }

  lemma {:induction false} PrefixWithin(c: Clock, samples: seq<Sample>, lo: real, hi: real, n: nat)
    requires c.count == 0 && Within(c, samples, lo, hi) && hi - lo <= WARP && n <= |samples|
    ensures NoReset(c, samples, 0, n)
    ensures Run(c, samples[..n]).count == n % COUNTS
    ensures n > 0 ==> lo <= Run(c, samples[..n]).adj <= hi
  {
    hide Run, Step, Warped, Offset;
    if n == 0 {
      RunNone(c, samples);
    } else {
      PrefixWithin(c, samples, lo, hi, n - 1);
      assert lo <= Offset(Run(c, samples[..n - 1]), samples[n - 1]) <= hi;
      RunLast(c, samples, n - 1);
      StepWithin(Run(c, samples[..n - 1]), samples[n - 1], lo, hi);
      SuccessorModulo(n - 1, COUNTS);
    }
  }

  // From a fresh average on, offsets within an interval no wider than 0.1 s keep the
  // average in that interval and never reset the clock.
  lemma NoSpuriousReset(c: Clock, samples: seq<Sample>, lo: real, hi: real)
    requires c.count == 0 && Within(c, samples, lo, hi) && hi - lo <= WARP
    ensures NoReset(c, samples, 0, |samples|)
    ensures Run(c, samples).count == |samples| % COUNTS
    ensures samples != [] ==> lo <= Run(c, samples).adj <= hi
  {
    hide Run, Within, NoReset;
    PrefixWithin(c, samples, lo, hi, |samples|);
    assert samples[..|samples|] == samples;
  }

  lemma SuccessorModulo(m: nat, n: nat)
    requires n > 0
    ensures (m % n + 1) % n == (m + 1) % n
  {
    assert m + 1 == m % n + 1 + m / n * n;
    AddMultiple(m % n + 1, m / n, n);
  }

  // Once the clock is synchronised, an offset that has left an interval of width w by a
  // jump J with 0.99 (|J| - w) > 0.1 resets it on that very sample.
  lemma SureDetection(c: Clock, samples: seq<Sample>, lo: real, hi: real, s: Sample, from: real, jump: real)
    requires c.count == 0 && samples != [] && Within(c, samples, lo, hi) && hi - lo <= WARP
    requires Synchronised(Advance(Run(c, samples), s))
    requires lo <= from <= hi && Offset(Run(c, samples), s) == from + jump
    requires (1.0 - ALPHA) * (Abs(jump) - (hi - lo)) > WARP
    ensures Warped(Run(c, samples), s)
    ensures Run(c, samples + [s]).count == 0 && Stamp(Run(c, samples), s) == s.system
  {
    hide Elapsed, Within, NoReset;
    NoSpuriousReset(c, samples, lo, hi);
    var b := Run(c, samples);
    assert Abs(b.adj - Offset(b, s)) >= Abs(jump) - (hi - lo);
    assert (1.0 - ALPHA) * Abs(b.adj - Offset(b, s)) >= (1.0 - ALPHA) * (Abs(jump) - (hi - lo));
    assert (samples + [s])[..|samples|] == samples;
    if b.count > 0 {
      WarpedWhen(b, s);
    }
  }

  // In the device's own terms: true time, read through the wrapping counter, and a system
  // clock that keeps within 0.1 s of it. The clock never resets and follows the true time.
  ghost predicate Steady(samples: seq<Sample>, truth: seq<int>, lo: real, hi: real)
  {
    && Reads(samples, truth) && hi - lo <= WARP
    && forall i :: 0 <= i < |samples| ==> lo <= samples[i].system - truth[i] as real / 1000.0 <= hi
  }

  // The clock's reading at true time 0.
  function Base(samples: seq<Sample>, truth: seq<int>): int
    requires samples != [] && truth != []
  {
    Elapsed(0, samples[0].timeStamp) - truth[0]
  }

  lemma {:induction false} SteadyOffset(samples: seq<Sample>, truth: seq<int>, lo: real, hi: real, k: nat)
    requires Steady(samples, truth, lo, hi) && 0 < k <= |samples| == |truth|
    ensures NoReset(Start(), samples, 0, k)
    ensures var n, base := Run(Start(), samples[..k]), Base(samples, truth);
      && n.hardware == (truth[k - 1] + base) as real / 1000.0 && n.last == samples[k - 1].timeStamp
      && lo <= n.adj + base as real / 1000.0 <= hi
  {
    hide Run, Step, Warped, Offset, Elapsed, Advance;
    var c, s, shift := Run(Start(), samples[..k - 1]), samples[k - 1], Base(samples, truth) as real / 1000.0;
    if k == 1 {
      RunNone(Start(), samples);
    } else {
      SteadyOffset(samples, truth, lo, hi, k - 1);
      TrueStep(samples[k - 2].timeStamp, s.timeStamp, truth[k - 2], truth[k - 1]);
    }
    SteadyStep(c, s, truth[k - 1] + Base(samples, truth));
    StepWithin(c, s, lo - shift, hi - shift);
    StepForward(c, s);
    RunLast(Start(), samples, k - 1);
  }

  lemma SteadyStep(c: Clock, s: Sample, millis: int)
    requires c.hardware + Elapsed(c.last, s.timeStamp) as real / 1000.0 == millis as real / 1000.0
    ensures Advance(c, s).hardware == millis as real / 1000.0
    ensures Offset(c, s) == s.system - millis as real / 1000.0
  {
    hide Elapsed;
  }

  lemma StampOf(c: Clock, s: Sample)
    requires !Warped(c, s)
    ensures Stamp(c, s) == if Synchronised(Step(c, s)) then Step(c, s).hardware + Step(c, s).adj else s.system
  {
  }

  // Every stamp, synchronised or not, is as close to the true time as the system clock is
  // known to be.
  lemma StampsAreTrue(samples: seq<Sample>, truth: seq<int>, lo: real, hi: real, i: nat)
    requires Steady(samples, truth, lo, hi) && i < |samples| == |truth|
    ensures lo <= StampAt(samples, i) - truth[i] as real / 1000.0 <= hi
  {
    hide Elapsed, Warped, Run, Step, Stamp, Reads;
    SteadyOffset(samples, truth, lo, hi, i + 1);
    assert !Warped(Run(Start(), samples[..i]), samples[i]);
    RunLast(Start(), samples, i);
    StampOf(Run(Start(), samples[..i]), samples[i]);
  }

  // ----- why 2 ms -----

  function Perfect(n: nat): seq<Sample>
  {
    if n == 0 then [] else Perfect(n - 1) + [Sample(n, n as real / 1000.0)]
  }

  lemma PerfectStep(n: nat)
    requires n < 1000
    ensures Step(Clock(n as real / 1000.0, n, 0.0, n), Sample(n + 1, (n + 1) as real / 1000.0))
         == Clock((n + 1) as real / 1000.0, n + 1, 0.0, n + 1)
  {
    hide Elapsed;
    ElapsedModulo(n, n + 1);
  }

  lemma {:induction false} PerfectRun(n: nat)
    requires n < 1000
    ensures |Perfect(n)| == n
    ensures Run(Start(), Perfect(n)) == Clock(n as real / 1000.0, n, 0.0, n)
  {
    hide Step;
    if n > 0 {
      PerfectRun(n - 1);
      assert Perfect(n)[..n - 1] == Perfect(n - 1);
      PerfectStep(n - 1);
    }
  }

  // In the state reached by samples, s and then t are both tracked.
  ghost predicate Tracks(samples: seq<Sample>, s: Sample, t: Sample)
  {
    var c := Run(Start(), samples);
    && Synchronised(Advance(c, s)) && !Warped(c, s)
    && Synchronised(Advance(Step(c, s), t)) && !Warped(Step(c, s), t)
  }

  ghost predicate Later(samples: seq<Sample>, s: Sample, t: Sample)
  {
    Stamp(Run(Start(), samples), s) < Stamp(Step(Run(Start(), samples), s), t)
  }

  // An increment of the counter that makes every tracked stamp later than the one before.
  ghost predicate Guarantees(ticks: nat)
  {
    forall samples, s, t ::
      Tracks(samples, s, t) && Elapsed(s.timeStamp, t.timeStamp) == ticks ==> Later(samples, s, t)
  }

  // With less than 2 ms between samples stamps can run backwards: after 200 perfect
  // samples, a system clock that drops back by 0.1 / 0.99 s is still tracked.
  lemma TooShort(ticks: nat)
    requires ticks < 2
    ensures var s, t := Sample(200, 0.2), Sample(200 + ticks, (200 + ticks) as real / 1000.0 - 0.1 / 0.99);
      && Tracks(Perfect(199), s, t) && Elapsed(s.timeStamp, t.timeStamp) == ticks
      && !Later(Perfect(199), s, t)
  {
    hide Run, Perfect, Elapsed;
    PerfectRun(199);
    PerfectStep(199);
    ElapsedModulo(199, 200);
    ElapsedModulo(200, 200 + ticks);
  }

  lemma TwoMilliseconds(ticks: nat)
    ensures Guarantees(ticks) <==> ticks >= 2
  {
    hide Run, Perfect, Elapsed, Tracks, Later;
    if ticks >= 2 {
      forall samples, s, t | Tracks(samples, s, t) && Elapsed(s.timeStamp, t.timeStamp) == ticks
        ensures Later(samples, s, t)
      {
        LongEnough(samples, s, t);
      }
    } else {
      TooShort(ticks);
    }
  }

  lemma LongEnough(samples: seq<Sample>, s: Sample, t: Sample)
    requires Tracks(samples, s, t) && Elapsed(s.timeStamp, t.timeStamp) >= 2
    ensures Later(samples, s, t)
  {
    hide Run, Elapsed, Offset;
    var c := Run(Start(), samples);
    StampLater(c, s, t);
    AheadOfOffset(Step(c, s), t);
  }
}
