/** How long a registered sensor needs to publish again once its device answers as it should. */
module Recovery {
  import opened Bus
  import opened SensorMachine
  import Ms5837
  import Bno055
  import OrientationValues
  import PressureValues
  import PromCheck
  import Crc4

  /** The device acknowledges everything, reports its identity when that is asked for, and its PROM words, when
      those are read, are non-zero and pass the check. */
  ghost predicate Healthy(c: Context, bus: Answers)
    requires c.sensor.Shaped()
  {
    && (forall k :: bus(k).ok)
    && (c.mode.Offline? ==>
         match c.sensor
         case Pressure(ms) =>
           ms.init.BeforeProm? ==>
             && (forall n :: 0 <= n < 7 ==> !Ms5837.Missing(bus(2 * n + 1)))
             && PromCheck.CrcMatches(Ms5837.WithWords(ms.calibration, bus, 7))
         case Orientation(bno) =>
           bno.init.BeforeProbe? || bno.init.Polling? ==> bus(0).At(0) == Bno055.ID)
  }

  /** Dispatches left until Init hands over `true`. */
  function InitRank(s: SensorState): nat {
    match s
    case Pressure(ms) =>
      (match ms.init
       case InitStart => 3
       case BeforeReset => 2
       case BeforeProm => 1)
    case Orientation(bno) =>
      (match bno.init
       case InitStart => 7
       case BeforeProbe => 6
       case Polling(_) => 5
       case BeforePower => 4
       case BeforePage => 3
       case BeforeMode => 2
       case Settling => 1)
  }

  /** Dispatches left until ReadData publishes. */
  function ReadRank(s: SensorState): nat {
    match s
    case Pressure(ms) =>
      (match ms.read
       case ReadStart => 4
       case BeforeD1 => 3
       case BeforeReadD1 => 2
       case BeforeReadD2 => 1)
    case Orientation(bno) =>
      (match bno.read
       case ReadStart => 5
       case BeforeStatus => 4
       case BeforeAcceleration => 3
       case BeforeEuler => 2
       case BeforeTemperature => 1)
  }

  function Rank(c: Context): nat {
    if c.mode.Online? && c.readActive then ReadRank(c.sensor) else InitRank(c.sensor) + ReadRank(c.sensor)
  }

  /** The most dispatches any state of this device needs. */
  function Longest(s: SensorState): nat {
    match s
    case Pressure(_) => 7
    case Orientation(_) => 12
  }

  lemma RankBounded(c: Context)
    ensures Rank(c) <= Longest(c.sensor)
  {
  }

  /** Something was published after position n. */
  predicate PublishedSince(trace: seq<Event>, n: nat) {
    exists k :: n <= k < |trace| && trace[k].Publish?
  }

  lemma HealthyInit(c: Context, bus: Answers)
    requires c.sensor.Shaped() && c.mode.Offline? && Healthy(c, bus)
    ensures var r := c.sensor.ResumeInit(bus);
      && ReadRank(r.sensor) == ReadRank(c.sensor)
      && if r.yielded == Yields(true) then InitRank(c.sensor) == 1
         else r.yielded == Nothing && InitRank(r.sensor) == InitRank(c.sensor) - 1 && InitRank(c.sensor) > 1
  {
    hide Ms5837.PromEvents, Ms5837.WithWords, Ms5837.Missing, Crc4.Masked, PromCheck.CrcMatches;
  }

  lemma HealthyRead(c: Context, bus: Answers)
    requires c.sensor.Shaped() && Healthy(c, bus)
    ensures var r := c.sensor.ResumeRead(bus);
      && r.yielded == Nothing
      && InitRank(r.sensor) == InitRank(c.sensor)
      && (PublishedSince(c.trace + r.events, |c.trace|) || ReadRank(r.sensor) == ReadRank(c.sensor) - 1)
  {
    hide Healthy, PublishedSince, Ms5837.ResumeRead, Bno055.ResumeRead;
    HealthyAcknowledges(c, bus);
    LastPublished(c.trace, c.sensor.ResumeRead(bus).events);
    match c.sensor
    case Pressure(ms) => HealthyPressureRead(ms, bus);
    case Orientation(bno) => HealthyOrientationRead(bno, bus);
  }

  lemma HealthyAcknowledges(c: Context, bus: Answers)
    requires c.sensor.Shaped() && Healthy(c, bus)
    ensures forall k :: bus(k).ok
  {
  }

  /** The last event is a publication. */
  predicate EndsPublished(events: seq<Event>) {
    events != [] && events[|events| - 1].Publish?
  }

  lemma HealthyPressureRead(s: Ms5837.State, bus: Answers)
    requires forall k :: bus(k).ok
    ensures var r := Ms5837.ResumeRead(s, bus);
      && r.yielded == Nothing && r.sensor.init == s.init
      && (EndsPublished(r.events) || ReadRank(Pressure(r.sensor)) == ReadRank(Pressure(s)) - 1)
  {
    hide PressureValues.Filtered, Ms5837.Reading;
    assert bus(0).ok && bus(1).ok && bus(2).ok;
  }

  lemma HealthyOrientationRead(s: Bno055.State, bus: Answers)
    requires forall k :: bus(k).ok
    ensures var r := Bno055.ResumeRead(s, bus);
      && r.yielded == Nothing && r.sensor.init == s.init
      && (EndsPublished(r.events) || ReadRank(Orientation(r.sensor)) == ReadRank(Orientation(s)) - 1)
  {
    hide OrientationValues.Filtered, Bno055.Six;
    assert bus(0).ok;
  }

  lemma LastPublished(trace: seq<Event>, events: seq<Event>)
    ensures EndsPublished(events) ==> PublishedSince(trace + events, |trace|)
  {
    if EndsPublished(events) {
      assert (trace + events)[|trace + events| - 1].Publish?;
    }
  }

  /** A dispatch with healthy answers publishes or comes one step nearer to publishing. */
  lemma HealthyDispatch(c: Context, bus: Answers)
    requires Valid(c) && Healthy(c, bus)
    ensures var d := Dispatch(c, bus);
      PublishedSince(d.trace, |c.trace|) || (Rank(d) == Rank(c) - 1 && Rank(d) > 0)
  {
    hide Healthy, PublishedSince;
    if c.mode.Online? {
      HealthyRead(c, bus);
    } else {
      HealthyInit(c, bus);
    }
  }

  function Served(buses: seq<Answers>): (steps: seq<Step>)
    ensures |steps| == |buses|
  {
    seq(|buses|, i requires 0 <= i < |buses| => Step.Served(buses[i]))
  }

  /** Each dispatch finds the device healthy. */
  ghost predicate HealthyRun(c: Context, buses: seq<Answers>)
    requires c.sensor.Shaped()
  {
    forall i :: 0 <= i < |buses| ==> Healthy(Run(c, Served(buses[..i])), buses[i])
  }

  lemma PublishedStays(c: Context, bus: Answers, n: nat)
    requires c.sensor.Shaped()
    ensures |Dispatch(c, bus).trace| >= |c.trace|
    ensures PublishedSince(c.trace, n) ==> PublishedSince(Dispatch(c, bus).trace, n)
  {
    var trace := Dispatch(c, bus).trace;
    assert forall k :: 0 <= k < |c.trace| ==> trace[k] == c.trace[k];
  }

  lemma ServedFront(buses: seq<Answers>)
    requires buses != []
    ensures var n := |buses| - 1;
      Served(buses)[..n] == Served(buses[..n]) && Served(buses)[n] == Step.Served(buses[n])
  {
  }

  lemma RunLast(c: Context, steps: seq<Step>)
    requires c.sensor.Shaped() && steps != [] && steps[|steps| - 1].Served?
    ensures Run(c, steps) == Dispatch(Run(c, steps[..|steps| - 1]), steps[|steps| - 1].bus)
  {
    hide Dispatch;
  }

  lemma ServedPrefix(c: Context, buses: seq<Answers>)
    requires c.sensor.Shaped() && buses != []
    ensures var n := |buses| - 1;
      Run(c, Served(buses)) == Dispatch(Run(c, Served(buses[..n])), buses[n])
  {
    hide *;
    var n := |buses| - 1;
    ServedFront(buses);
    RunLast(c, Served(buses));
  }

  /** After j healthy dispatches something new is out or the rank has dropped by j. */
  lemma {:induction false} Progress(c: Context, buses: seq<Answers>)
    requires Valid(c) && HealthyRun(c, buses)
    ensures var d := Run(c, Served(buses));
      Valid(d) && |d.trace| >= |c.trace| && (PublishedSince(d.trace, |c.trace|) || Rank(d) == Rank(c) - |buses|)
    decreases |buses|
  {
    ValidShaped(c);
    hide Valid, PublishedSince, Dispatch, Run, Rank, HealthyRun, Served;
    if buses == [] {
      NothingServed(c);
    } else {
      var n := |buses| - 1;
      var front, bus := buses[..n], buses[n];
      ServedPrefix(c, buses);
      HealthyPrefix(c, buses);
      Progress(c, front);
      var e := Run(c, Served(front));
      PublishedStays(e, bus, |c.trace|);
      if !PublishedSince(e.trace, |c.trace|) {
        HealthyDispatch(e, bus);
        PublishedEarlier(Dispatch(e, bus).trace, |e.trace|, |c.trace|);
      }
      DispatchValid(e, bus);
    }
  }

  lemma NothingServed(c: Context)
    requires c.sensor.Shaped()
    ensures Run(c, Served([])) == c
  {
  }

  lemma HealthyPrefix(c: Context, buses: seq<Answers>)
    requires c.sensor.Shaped() && buses != [] && HealthyRun(c, buses)
    ensures HealthyRun(c, buses[..|buses| - 1])
    ensures Healthy(Run(c, Served(buses[..|buses| - 1])), buses[|buses| - 1])
  {
    hide Healthy, Run;
    var front := buses[..|buses| - 1];
    forall i | 0 <= i < |front|
      ensures Healthy(Run(c, Served(front[..i])), front[i])
    {
      assert front[..i] == buses[..i];
    }
  }

  lemma PublishedEarlier(trace: seq<Event>, n: nat, m: nat)
    requires m <= n
    ensures PublishedSince(trace, n) ==> PublishedSince(trace, m)
  {
  }

  /** From any state a run can reach, whatever failed before: 7 dispatches of a healthy MS5837 and 12 of a healthy
      BNO055 publish a new sample. */
  lemma Recovers(fd: nat, sensor: SensorState, steps: seq<Step>, buses: seq<Answers>)
    requires sensor.Shaped() && sensor.Unstarted()
    requires HealthyRun(Run(Registered(fd, sensor), steps), buses) && |buses| >= Longest(sensor)
    ensures var c := Run(Registered(fd, sensor), steps);
      PublishedSince(Run(c, Served(buses)).trace, |c.trace|)
  {
    var c := Run(Registered(fd, sensor), steps);
    RegisteredValid(fd, sensor);
    RunValid(Registered(fd, sensor), steps);
    var d := Run(c, Served(buses));
    assert sensor.SameDevice(d.sensor) && sensor.SameDevice(c.sensor);
    hide Run, Valid, Dispatch;
    Progress(c, buses);
    RankBounded(c);
    RankPositive(d);
  }

  lemma RankPositive(c: Context)
    ensures Rank(c) > 0
  {
  }
}
