/** What the sensors publish, traced back through the filters to the raw samples and to the initialisations behind
    them. */
module Published {
  import opened Bus
  import opened Publications
  import opened SensorMachine
  import Ms5837
  import Bno055
  import opened Trigonometry
  import P = PressureValues
  import O = OrientationValues

  /** What is published at position k is made of the samples before it and of those taken since position i. */
  lemma SamplesUpTo(trace: seq<Event>, i: nat, k: nat, n: nat)
    requires i <= k < |trace| && n > 0
    ensures SamplesOf(trace[..k + 1]) == SamplesOf(trace[..i]) + SamplesOf(trace[i..k + 1])
    ensures LastTakenSince(trace[..k + 1], n, i) <==> |SamplesOf(trace[i..k + 1])| >= n
  {
    var upTo := trace[..k + 1];
    assert upTo[..i] == trace[..i] && upTo[i..] == trace[i..k + 1] && upTo == upTo[..i] + upTo[i..];
    SamplesConcat(upTo[..i], upTo[i..]);
    LastTakenSinceExactly(upTo, n, i);
  }

  /** In every run, whatever the MS5837 publishes is the filters' answer to all raw samples so far, each justified
      by an initialisation of its own. It rests on the one at i, the last before it: no sampling access has failed
      since, and all samples since carry the words read then. The two samples that the answer depends on were both
      taken since i exactly when two have been, and then nothing older matters. */
  lemma PressurePublished(fd: nat, sensor: SensorState, steps: seq<Step>, k: nat) returns (i: nat)
    requires sensor.Shaped() && sensor.Unstarted() && sensor.Pressure?
    requires var trace := Run(Registered(fd, sensor), steps).trace; k < |trace| && trace[k].Publish?
    ensures var trace := Run(Registered(fd, sensor), steps).trace;
      var taken := SamplesOf(trace[..k + 1]);
      && (forall m :: 0 <= m <= k && trace[m].Publish? ==> Ms5837.Justified(trace, m))
      && P.Readable(trace[k].sample)
      && trace[k].data == P.Filtered(taken, sensor.ms.overflowing)
      && Ms5837.CalibratedSince(trace, i, k, trace[k].sample.calibration)
      && (forall m :: i <= m <= k && trace[m].Publish? ==>
           trace[m].sample.PressureSample? && trace[m].sample.calibration == trace[k].sample.calibration)
      && var since := SamplesOf(trace[i..k + 1]);
         && (LastTakenSince(trace[..k + 1], P.FILTER_SIZE, i) <==> |since| >= P.FILTER_SIZE)
         && (|since| >= P.FILTER_SIZE ==> trace[k].data == P.Filtered(since, sensor.ms.overflowing))
  {
    var c := Run(Registered(fd, sensor), steps);
    RunSafe(fd, sensor, steps);
    var trace := c.trace;
    assert Ms5837.AllJustified(trace) && Ms5837.Recorded(c.sensor.ms, trace);
    hide Run, Ms5837.CalibratedSince, Ms5837.SamplePassBefore, P.Filtered, LastTakenSince, SamplesOf, P.Readable;
    assert Ms5837.Justified(trace, k);
    Ms5837.JustifiedReadable(trace, k);
    i :| Ms5837.CalibratedSince(trace, i, k, trace[k].sample.calibration);
    StartsBefore(trace, i, k);
    forall m | i <= m <= k && trace[m].Publish?
      ensures trace[m].sample.PressureSample? && trace[m].sample.calibration == trace[k].sample.calibration
    {
      Ms5837.SameWordsSince(trace, i, k, m);
    }
    SamplesUpTo(trace, i, k, P.FILTER_SIZE);
    if |SamplesOf(trace[i..k + 1])| >= P.FILTER_SIZE {
      P.FilteredSince(SamplesOf(trace[..i]), SamplesOf(trace[i..k + 1]), sensor.ms.overflowing);
    }
  }

  lemma StartsBefore(trace: seq<Event>, i: nat, k: nat)
    requires k < |trace| && trace[k].Publish? && trace[k].sample.PressureSample?
    requires Ms5837.CalibratedSince(trace, i, k, trace[k].sample.calibration)
    ensures i <= k
  {
    hide Ms5837.InitPassAt;
  }

  /** In every run, whatever the BNO055 publishes is the filters' answer to all raw samples so far, each justified
      by an initialisation of its own, and rests on the one at i. All but the angle about z are free of older samples
      from the tenth publication since i on, that angle from the twentieth on. */
  lemma OrientationPublished(fd: nat, sensor: SensorState, steps: seq<Step>, k: nat) returns (i: nat, polls: nat)
    requires sensor.Shaped() && sensor.Unstarted() && sensor.Orientation?
    requires var trace := Run(Registered(fd, sensor), steps).trace; k < |trace| && trace[k].Publish?
    ensures var trace := Run(Registered(fd, sensor), steps).trace;
      var trig := sensor.bno.trig;
      && (forall m :: 0 <= m <= k && trace[m].Publish? ==> Bno055.Justified(trace, m, sensor.bno.mode))
      && trace[k].data == O.Filtered(SamplesOf(trace[..k + 1]), trig)
      && Bno055.ConfiguredSince(trace, i, polls, k, sensor.bno.mode)
      && i <= k
      && var since := SamplesOf(trace[i..k + 1]);
         && (LastTakenSince(trace[..k + 1], O.ACCELERATION_SIZE, i) <==> |since| >= O.ACCELERATION_SIZE)
         && (LastTakenSince(trace[..k + 1], O.LONGEST, i) <==> |since| >= O.LONGEST)
         && (|since| >= O.ACCELERATION_SIZE ==> SameButHeading(trace[k].data, O.Filtered(since, trig)))
         && (|since| >= O.LONGEST ==> trace[k].data == O.Filtered(since, trig))
  {
    var c := Run(Registered(fd, sensor), steps);
    RunSafe(fd, sensor, steps);
    var trace, trig := c.trace, sensor.bno.trig;
    assert Bno055.AllJustified(trace, sensor.bno.mode) && Bno055.Recorded(c.sensor.bno, trace);
    hide Run, Bno055.ConfiguredSince, Bno055.StatusAt, Bno055.BlockAt, O.Filtered, LastTakenSince, SamplesOf;
    hide SameButHeading;
    assert Bno055.Justified(trace, k, sensor.bno.mode);
    i, polls :| Bno055.ConfiguredSince(trace, i, polls, k, sensor.bno.mode);
    ConfiguredBefore(trace, i, polls, k, sensor.bno.mode);
    SamplesUpTo(trace, i, k, O.ACCELERATION_SIZE);
    SamplesUpTo(trace, i, k, O.LONGEST);
    var earlier, since := SamplesOf(trace[..i]), SamplesOf(trace[i..k + 1]);
    if |since| >= O.ACCELERATION_SIZE {
      FilteredButHeading(earlier, since, trig);
    }
    if |since| >= O.LONGEST {
      O.FilteredSince(earlier, since, trig);
    }
  }

  /** Equal except perhaps for the angle about z. */
  predicate SameButHeading(a: Data, b: Data) {
    && a.OrientationData? && b.OrientationData?
    && a == b.(euler := b.euler.(z := a.euler.z))
  }

  lemma FilteredButHeading(earlier: seq<Sample>, since: seq<Sample>, trig: Trig)
    requires |since| >= O.ACCELERATION_SIZE
    ensures SameButHeading(O.Filtered(earlier + since, trig), O.Filtered(since, trig))
  {
    hide O.MeanAcceleration, O.MeanAngle, O.Accuracy, O.Int8;
    forall c: O.Coordinate
      ensures O.MeanAcceleration(earlier + since, c) == O.MeanAcceleration(since, c)
      ensures !c.Z? ==> O.MeanAngle(earlier + since, c, trig) == O.MeanAngle(since, c, trig)
    {
      O.MeanAccelerationSince(earlier, since, c);
      if !c.Z? {
        O.MeanAngleSince(earlier, since, c, trig);
      }
    }
  }

  lemma ConfiguredBefore(trace: seq<Event>, i: nat, polls: nat, k: nat, mode: nat)
    requires k < |trace| && Bno055.ConfiguredSince(trace, i, polls, k, mode)
    ensures i <= k
  {
    hide Bno055.PassFrom;
  }
}
