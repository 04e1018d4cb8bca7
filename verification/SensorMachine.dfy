/** One registered sensor: its two coroutines, their promise flags, its timer and its Online/Offline state. */
module SensorMachine {
  import opened Bus
  import opened Publications
  import Ms5837
  import Bno055

  function AsPressure(r: Resumed<Ms5837.State>): Resumed<SensorState> {
    Resumed(Pressure(r.sensor), r.delay, r.yielded, r.events)
  }

  function AsOrientation(r: Resumed<Bno055.State>): Resumed<SensorState> {
    Resumed(Orientation(r.sensor), r.delay, r.yielded, r.events)
  }

  datatype SensorState = Pressure(ms: Ms5837.State) | Orientation(bno: Bno055.State)
  {
    ghost predicate Shaped() {
      match this
      case Pressure(ms) => ms.Shaped()
      case Orientation(bno) => bno.Shaped()
    }

    /** The same device, asked for the same operation mode. */
    ghost predicate SameDevice(s: SensorState) {
      match this
      case Pressure(ms) => s.Pressure? && s.ms.overflowing == ms.overflowing
      case Orientation(bno) => s.Orientation? && s.bno.mode == bno.mode && s.bno.trig == bno.trig
    }

    /** The filters have been fed the samples of the trace, and each publication is what they made of those up to
        and including its own. */
    ghost predicate Recorded(trace: seq<Event>) {
      match this
      case Pressure(ms) => Ms5837.Recorded(ms, trace)
      case Orientation(bno) => Bno055.Recorded(bno, trace)
    }

    /** Both coroutines created and suspended before their first statement, with empty filters. */
    predicate Unstarted() {
      match this
      case Pressure(ms) => ms.init.InitStart? && ms.read.ReadStart? && |ms.taken| == 0
      case Orientation(bno) => bno.init.InitStart? && bno.read.ReadStart? && |bno.taken| == 0
    }

    /** ReadData is suspended at its first co_await. */
    predicate ReadWaitsFirst() {
      match this
      case Pressure(ms) => ms.read.BeforeD1?
      case Orientation(bno) => bno.read.BeforeStatus?
    }

    predicate ReadStarted() {
      match this
      case Pressure(ms) => !ms.read.ReadStart?
      case Orientation(bno) => !bno.read.ReadStart?
    }

    /** Init is suspended at its first co_await. */
    predicate InitWaitsFirst() {
      match this
      case Pressure(ms) => ms.init.BeforeReset?
      case Orientation(bno) => bno.init.BeforeProbe?
    }

    ghost predicate InitTrace(trace: seq<Event>) {
      match this
      case Pressure(ms) => Ms5837.InitTrace(ms, trace)
      case Orientation(bno) => Bno055.InitTrace(bno, trace)
    }

    ghost predicate ReadTrace(trace: seq<Event>) {
      match this
      case Pressure(ms) => Ms5837.ReadTrace(ms, trace)
      case Orientation(bno) => Bno055.ReadTrace(bno, trace)
    }

    /** Every raw sample comes from one undivided pass after a complete, unspoilt initialisation. */
    ghost predicate SamplesJustified(trace: seq<Event>) {
      match this
      case Pressure(ms) => Ms5837.AllJustified(trace)
      case Orientation(bno) => Bno055.AllJustified(trace, bno.mode)
    }

    ghost function ResumeInit(bus: Answers): (r: Resumed<SensorState>)
      requires Shaped()
      ensures r.sensor.Shaped() && SameDevice(r.sensor)
    {
      match this
      case Pressure(ms) => AsPressure(Ms5837.ResumeInit(ms, bus))
      case Orientation(bno) => AsOrientation(Bno055.ResumeInit(bno, bus))
    }

    ghost function ResumeRead(bus: Answers): (r: Resumed<SensorState>)
      requires Shaped()
      ensures r.sensor.Shaped() && SameDevice(r.sensor)
    {
      match this
      case Pressure(ms) => AsPressure(Ms5837.ResumeRead(ms, bus))
      case Orientation(bno) => AsOrientation(Bno055.ResumeRead(bno, bus))
    }
  }

  // ---------------------------------------------------------------- both sensors, one resume

  lemma InitResumed(s: SensorState, trace: seq<Event>, bus: Answers)
    requires s.Shaped() && s.SamplesJustified(trace) && s.InitTrace(trace) && s.Recorded(trace)
    ensures var r := s.ResumeInit(bus);
      && r.sensor.SamplesJustified(trace + r.events)
      && r.sensor.Recorded(trace + r.events)
      && r.sensor.InitTrace(trace + r.events)
      && (s.ReadWaitsFirst() ==> r.sensor.ReadWaitsFirst())
      && (r.yielded == Nothing || r.yielded == Yields(true))
      && (r.yielded == Yields(true) && s.ReadWaitsFirst() ==>
           r.sensor.InitWaitsFirst() && r.sensor.ReadTrace(trace + r.events))
  {
    match s
    case Pressure(ms) =>
      Ms5837.InitPreserves(ms, trace, bus);
      hide Ms5837.AllJustified, Ms5837.ResumeInit, Ms5837.CalibratedSince, Ms5837.Recorded;
      Ms5837.InitRecorded(ms, trace, bus);
    case Orientation(bno) =>
      Bno055.InitPreserves(bno, trace, bus);
      hide Bno055.AllJustified, Bno055.ResumeInit, Bno055.ConfiguredSince, Bno055.Recorded;
      Bno055.InitRecorded(bno, trace, bus);
  }

  lemma ReadResumed(s: SensorState, trace: seq<Event>, bus: Answers)
    requires s.Shaped() && s.SamplesJustified(trace) && s.ReadTrace(trace)
    requires s.ReadStarted() && s.InitWaitsFirst()
    ensures var r := s.ResumeRead(bus);
      && r.sensor.SamplesJustified(trace + r.events)
      && r.sensor.InitWaitsFirst()
      && (r.yielded == Nothing || r.yielded == Yields(false))
      && (r.yielded == Nothing ==> r.sensor.ReadStarted() && r.sensor.ReadTrace(trace + r.events))
      && (r.yielded == Yields(false) ==> r.sensor.ReadWaitsFirst())
  {
    match s
    case Pressure(ms) =>
      Ms5837.ReadPreserves(ms, trace, bus);
      hide Ms5837.AllJustified, Ms5837.ResumeRead, Ms5837.ReadTrace;
    case Orientation(bno) =>
      Bno055.ReadPreserves(bno, trace, bus);
      hide Bno055.AllJustified, Bno055.ResumeRead, Bno055.ReadTrace;
  }

  /** What a resume of ReadData publishes is what the filters make of the samples so far. */
  lemma ReadRecorded(s: SensorState, trace: seq<Event>, bus: Answers)
    requires s.Shaped() && s.Recorded(trace)
    ensures var r := s.ResumeRead(bus); r.sensor.Recorded(trace + r.events)
  {
    hide Ms5837.ResumeRead, Bno055.ResumeRead, Ms5837.Recorded, Bno055.Recorded;
    match s
    case Pressure(ms) => Ms5837.ReadRecorded(ms, trace, bus);
    case Orientation(bno) => Bno055.ReadRecorded(bno, trace, bus);
  }

  /** The first resume of ReadData only reaches its first co_await. */
  lemma ReadStarts(s: SensorState, bus: Answers)
    requires s.Shaped() && s.Unstarted()
    ensures var r := s.ResumeRead(bus);
      && r.sensor.ReadWaitsFirst() && r.yielded == Nothing && r.events == []
      && (forall trace: seq<Event> :: r.sensor.SamplesJustified(trace) == s.SamplesJustified(trace))
      && (forall trace: seq<Event> :: r.sensor.InitTrace(trace) == s.InitTrace(trace))
      && (forall trace: seq<Event> :: r.sensor.Recorded(trace) == s.Recorded(trace))
  {
  }

  /** Every resume stops at a co_await after a few accesses and asks for a delay that arms the timer. */
  lemma ResumesArm(s: SensorState, bus: Answers)
    requires s.Shaped()
    ensures Arms(s.ResumeInit(bus).delay) && |s.ResumeInit(bus).events| <= 14
    ensures Arms(s.ResumeRead(bus).delay) && |s.ResumeRead(bus).events| <= 3
  {
    hide Ms5837.ResumeInit, Ms5837.ResumeRead, Bno055.ResumeInit, Bno055.ResumeRead;
    match s
    case Pressure(ms) => Ms5837.ResumesArm(ms, bus);
    case Orientation(bno) => Bno055.ResumesArm(bno, bus);
  }

  // ---------------------------------------------------------------- the registered sensor

  datatype Mode = Online | Offline

  /** A one-shot timer: running, run out with the expiry not yet read, or neither. */
  datatype Timer = Armed(delay: nat) | Expired | Disarmed

  datatype Context = Context(
    fd: nat, sensor: SensorState, readActive: bool, initActive: bool, mode: Mode, timer: Timer, trace: seq<Event>)

  /** Setting a one-shot timer replaces what it did before: a delay of zero disarms it and a delay of a second
      or more is refused, which leaves a timer whose expiry has been read as it is. */
  function SetTimer(delay: nat): Timer {
    if Arms(delay) then Armed(delay) else Disarmed
  }

  function Registered(fd: nat, sensor: SensorState): Context {
    Context(fd, sensor, false, false, Online, SetTimer(SleepForMs(10)), [])
  }

  /** The promise flag after a resume, before it is handed over. */
  function Flag(before: bool, yielded: Yield): bool {
    match yielded
    case Nothing => before
    case Yields(active) => active
  }

  /** Serving one expiry: ReadData is resumed while online, Init while offline. The coroutine hands over its flag
      and gets `true` for ReadData, `false` for Init in exchange. */
  ghost function Dispatch(c: Context, bus: Answers): (r: Context)
    requires c.sensor.Shaped()
    ensures r.sensor.Shaped() && c.sensor.SameDevice(r.sensor) && r.fd == c.fd
  {
    match c.mode
    case Online =>
      var r := c.sensor.ResumeRead(bus);
      c.(sensor := r.sensor, readActive := true, timer := SetTimer(r.delay), trace := c.trace + r.events,
         mode := if Flag(c.readActive, r.yielded) then Online else Offline)
    case Offline =>
      var r := c.sensor.ResumeInit(bus);
      c.(sensor := r.sensor, initActive := false, timer := SetTimer(r.delay), trace := c.trace + r.events,
         mode := if Flag(c.initActive, r.yielded) then Online else Offline)
  }

  /** Time passes until the timer runs out. */
  function Expire(c: Context): Context {
    if c.timer.Armed? then c.(timer := Expired) else c
  }

  // ---------------------------------------------------------------- what holds in every run

  /** Registered and not served yet. */
  ghost predicate Fresh(c: Context) {
    c.mode.Online? && !c.readActive && !c.initActive && c.sensor.Unstarted() && c.trace == []
  }

  /** Waiting for Init to succeed, with ReadData back at its first co_await. */
  ghost predicate Initialising(c: Context) {
    && c.mode.Offline? && c.readActive && !c.initActive
    && c.sensor.ReadWaitsFirst() && c.sensor.InitTrace(c.trace)
  }

  /** Sampling, with Init back at its first co_await. */
  ghost predicate Sampling(c: Context) {
    && c.mode.Online? && c.readActive && !c.initActive
    && c.sensor.InitWaitsFirst() && c.sensor.ReadStarted() && c.sensor.ReadTrace(c.trace)
  }

  ghost predicate Valid(c: Context) {
    && c.sensor.Shaped()
    && c.sensor.SamplesJustified(c.trace)
    && c.sensor.Recorded(c.trace)
    && !c.timer.Disarmed?
    && (Fresh(c) || Initialising(c) || Sampling(c))
  }

  lemma RegisteredValid(fd: nat, sensor: SensorState)
    requires sensor.Shaped() && sensor.Unstarted()
    ensures Valid(Registered(fd, sensor))
  {
  }

  lemma FreshDispatch(c: Context, bus: Answers)
    requires Valid(c) && Fresh(c)
    ensures Initialising(Dispatch(c, bus)) && Dispatch(c, bus).sensor.SamplesJustified([])
    ensures Dispatch(c, bus).sensor.Recorded([])
    ensures Dispatch(c, bus).trace == []
  {
    ReadStarts(c.sensor, bus);
  }

  /** One dispatch keeps the invariant: the first one demotes the sensor, a failed pass demotes it, and only a
      completed Init promotes it again. */
  lemma DispatchValid(c: Context, bus: Answers)
    requires Valid(c)
    ensures Valid(Dispatch(c, bus)) && !Fresh(Dispatch(c, bus))
    ensures Fresh(c) ==> Initialising(Dispatch(c, bus))
  {
    ResumesArm(c.sensor, bus);
    if Fresh(c) {
      FreshDispatch(c, bus);
    } else if Initialising(c) {
      InitResumed(c.sensor, c.trace, bus);
    } else {
      ReadResumed(c.sensor, c.trace, bus);
      ReadRecorded(c.sensor, c.trace, bus);
    }
  }

  lemma ValidShaped(c: Context)
    requires Valid(c)
    ensures c.sensor.Shaped()
  {
  }

  lemma ExpireValid(c: Context)
    requires Valid(c)
    ensures Valid(Expire(c)) && Fresh(Expire(c)) == Fresh(c)
  {
  }

  // ---------------------------------------------------------------- whole runs

  /** One thing that happens to a registered sensor. */
  datatype Step = TimerExpires | Served(bus: Answers)

  ghost function Stepped(c: Context, step: Step): (r: Context)
    requires c.sensor.Shaped()
    ensures r.sensor.Shaped() && c.sensor.SameDevice(r.sensor) && r.fd == c.fd
  {
    match step
    case TimerExpires => Expire(c)
    case Served(bus) => Dispatch(c, bus)
  }

  /** The sensor after the steps, from the first on. */
  ghost function Run(c: Context, steps: seq<Step>): (r: Context)
    requires c.sensor.Shaped()
    ensures r.sensor.Shaped() && c.sensor.SameDevice(r.sensor) && r.fd == c.fd
  {
    if steps == [] then c else Stepped(Run(c, steps[..|steps| - 1]), steps[|steps| - 1])
  }

  lemma {:induction false} RunValid(c: Context, steps: seq<Step>)
    requires Valid(c)
    ensures Valid(Run(c, steps))
    ensures (exists step :: step in steps && step.Served?) ==> !Fresh(Run(c, steps))
  {
    ValidShaped(c);
    hide Valid, Fresh, Dispatch, Expire;
    if steps == [] {
    } else {
      var front, last := steps[..|steps| - 1], steps[|steps| - 1];
      RunValid(c, front);
      assert steps == front + [last];
      if last.Served? {
        DispatchValid(Run(c, front), last.bus);
      } else {
        ExpireValid(Run(c, front));
      }
    }
  }

  /** Wherever a run has got to: an offline sensor has ReadData at its first co_await, an online sensor that has
      been served has Init at its first co_await, the timer is armed or has an expiry to deliver, every raw sample
      taken so far is justified, and everything published is what the filters made of the samples up to then. */
  lemma RunSafe(fd: nat, sensor: SensorState, steps: seq<Step>)
    requires sensor.Shaped() && sensor.Unstarted()
    ensures var c := Run(Registered(fd, sensor), steps);
      && (c.mode.Offline? ==> c.sensor.ReadWaitsFirst())
      && (c.mode.Online? && (exists step :: step in steps && step.Served?) ==>
           c.sensor.InitWaitsFirst() && c.sensor.ReadTrace(c.trace))
      && (c.timer.Armed? || c.timer.Expired?)
      && c.sensor.SamplesJustified(c.trace)
      && c.sensor.Recorded(c.trace)
  {
    RegisteredValid(fd, sensor);
    RunValid(Registered(fd, sensor), steps);
  }

  /** In every run: between a failed MS5837 sampling access and the next raw sample lies a complete initialisation
      whose words passed the check, and those are the words that the sample carries. */
  lemma PressureAfterFailure(fd: nat, sensor: SensorState, steps: seq<Step>, m: nat, k: nat)
    requires sensor.Shaped() && sensor.Unstarted() && sensor.Pressure?
    ensures var trace := Run(Registered(fd, sensor), steps).trace;
      m < k < |trace| && trace[k].Publish? && Ms5837.FailedSampling(trace[m]) ==>
        && trace[k].sample.PressureSample?
        && exists i: nat :: m < i && Ms5837.CalibratedSince(trace, i, k, trace[k].sample.calibration)
  {
    RunSafe(fd, sensor, steps);
    var trace := Run(Registered(fd, sensor), steps).trace;
    assert Ms5837.AllJustified(trace);
    if m < k < |trace| && trace[k].Publish? && Ms5837.FailedSampling(trace[m]) {
      hide Run, Ms5837.CalibratedSince, Ms5837.FailedSampling, Ms5837.SamplePassBefore;
      assert Ms5837.Justified(trace, k);
      var i: nat :| Ms5837.CalibratedSince(trace, i, k, trace[k].sample.calibration);
      Ms5837.FailureForcesInit(trace, m, i, k, trace[k].sample.calibration);
    }
  }

  /** In every run: between a failed BNO055 sampling access and the next raw sample lies a complete, ordered
      configuration. */
  lemma OrientationAfterFailure(fd: nat, sensor: SensorState, steps: seq<Step>, m: nat, k: nat)
    requires sensor.Shaped() && sensor.Unstarted() && sensor.Orientation?
    ensures var trace := Run(Registered(fd, sensor), steps).trace;
      m < k < |trace| && trace[k].Publish? && Bno055.FailedSampling(trace[m]) ==>
        exists i: nat, polls: nat :: m < i && Bno055.ConfiguredSince(trace, i, polls, k, sensor.bno.mode)
  {
    RunSafe(fd, sensor, steps);
    var mode := sensor.bno.mode;
    var trace := Run(Registered(fd, sensor), steps).trace;
    assert Bno055.AllJustified(trace, mode);
    if m < k < |trace| && trace[k].Publish? && Bno055.FailedSampling(trace[m]) {
      hide Run, Bno055.ConfiguredSince, Bno055.FailedSampling;
      assert Bno055.Justified(trace, k, mode);
      var i: nat, polls: nat :| Bno055.ConfiguredSince(trace, i, polls, k, mode);
      Bno055.FailureForcesInit(trace, m, i, polls, k, mode);
    }
  }
}
