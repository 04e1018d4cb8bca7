/** How long each sensor is left alone between its accesses, in every run. Delays are in nanoseconds. */
module Waits {
  import opened Bus
  import opened SensorMachine
  import Ms5837
  import Bno055
  import opened Crc4
  import opened PromCheck
  import V = PressureValues
  import O = OrientationValues

  // ---------------------------------------------------------------- MS5837

  /** An acknowledged conversion command. */
  predicate Converting(e: Event) {
    Acknowledged(e, WriteByte(0x4A)) || Acknowledged(e, WriteByte(0x5A))
  }

  /** A conversion takes 20 milliseconds; everything else is followed by 10. */
  function PressureWait(trace: seq<Event>): nat {
    if trace != [] && Converting(trace[|trace| - 1]) then 20000000 else 10000000
  }

  ghost predicate PressureTimer(c: Context) {
    c.timer == Expired || c.timer == Armed(PressureWait(c.trace))
  }

  /** The delay that a resume asks for depends on the last thing it did to the bus. */
  lemma PressureInitWaits(s: Ms5837.State, bus: Answers)
    requires s.Shaped()
    ensures var r := Ms5837.ResumeInit(s, bus);
      && (r.events == [] <==> s.init.InitStart?)
      && r.delay == PressureWait(r.events)
  {
    hide Ms5837.WithWords, Masked, CrcMatches, Ms5837.Missing;
  }

  lemma PressureReadWaits(s: Ms5837.State, bus: Answers)
    ensures var r := Ms5837.ResumeRead(s, bus);
      && (r.events == [] <==> s.read.ReadStart?)
      && r.delay == PressureWait(r.events)
  {
    hide Ms5837.Reading, V.Filtered;
  }

  lemma PressureWaitExtends(trace: seq<Event>, events: seq<Event>)
    requires events != [] || trace == []
    ensures PressureWait(trace + events) == PressureWait(events)
  {
  }

  /** Nothing has happened on the bus before the first statement of Init. */
  predicate StartsClean(c: Context) {
    match c.sensor
    case Pressure(ms) => ms.init.InitStart? ==> c.trace == []
    case Orientation(bno) => bno.init.InitStart? ==> c.trace == []
  }

  lemma ReadStartClean(c: Context)
    requires Valid(c) && c.mode.Online?
    ensures !c.sensor.ReadStarted() ==> c.trace == []
    ensures c.sensor.ReadStarted() ==> c.sensor.InitWaitsFirst()
  {
    hide Ms5837.AllJustified, Bno055.AllJustified, Ms5837.Recorded, Bno055.Recorded;
  }

  lemma PressureDispatchWaits(c: Context, bus: Answers)
    requires Valid(c) && c.sensor.Pressure? && StartsClean(c)
    ensures var r := Dispatch(c, bus); PressureTimer(r) && StartsClean(r)
  {
    hide Ms5837.ResumeInit, Ms5837.ResumeRead, PressureWait, Valid;
    var ms := c.sensor.ms;
    ValidShaped(c);
    PressureInitWaits(ms, bus);
    PressureReadWaits(ms, bus);
    ResumesArm(c.sensor, bus);
    PressureMoves(ms, bus);
    if c.mode.Online? {
      ReadStartClean(c);
      PressureWaitExtends(c.trace, Ms5837.ResumeRead(ms, bus).events);
    } else {
      PressureWaitExtends(c.trace, Ms5837.ResumeInit(ms, bus).events);
    }
  }

  lemma PressureMoves(s: Ms5837.State, bus: Answers)
    requires s.Shaped()
    ensures !Ms5837.ResumeInit(s, bus).sensor.init.InitStart?
    ensures Ms5837.ResumeRead(s, bus).sensor.init == s.init
    ensures s.read.ReadStart? ==> Ms5837.ResumeRead(s, bus).events == []
  {
    hide Ms5837.WithWords, Masked, CrcMatches, Ms5837.Missing, Ms5837.Reading, V.Filtered;
  }

  /** In every run of an MS5837: the timer runs for 20 milliseconds after an acknowledged conversion command, so that
      no reading is fetched earlier, and for 10 after anything else. */
  lemma {:induction false} PressureWaits(fd: nat, sensor: SensorState, steps: seq<Step>)
    requires sensor.Shaped() && sensor.Unstarted() && sensor.Pressure?
    ensures var c := Run(Registered(fd, sensor), steps); PressureTimer(c) && StartsClean(c)
  {
    if steps == [] {
    } else {
      hide Valid, Dispatch, PressureWait, StartsClean;
      var front, last := steps[..|steps| - 1], steps[|steps| - 1];
      PressureWaits(fd, sensor, front);
      RegisteredValid(fd, sensor);
      RunValid(Registered(fd, sensor), front);
      var c := Run(Registered(fd, sensor), front);
      if last.Served? {
        PressureDispatchWaits(c, last.bus);
      } else {
        ExpireKeeps(c);
      }
    }
  }

  lemma ExpireKeeps(c: Context)
    ensures StartsClean(Expire(c)) == StartsClean(c) && Expire(c).trace == c.trace && Expire(c).sensor == c.sensor
    ensures Expire(c).timer == c.timer || Expire(c).timer == Expired
    ensures Expire(c).mode == c.mode
  {
  }

  // ---------------------------------------------------------------- BNO055

  /** What Init waits for, by where it is suspended: the reset 50 milliseconds, a failed poll 30, waking up 50, power
      10, page and trigger 30, the new mode 100. */
  function InitWait(p: Bno055.InitPoint): nat {
    match p
    case Polling(failed) => if failed == 0 then 50000000 else 30000000
    case BeforePower => 50000000
    case BeforePage => 10000000
    case BeforeMode => 30000000
    case Settling => 100000000
    case InitStart => 10000000
    case BeforeProbe => 10000000
  }

  lemma OrientationResumeWaits(s: Bno055.State, bus: Answers)
    requires s.Shaped()
    ensures var r := Bno055.ResumeInit(s, bus);
      !r.sensor.init.InitStart? && r.delay == InitWait(r.sensor.init) && r.sensor.read == s.read
    ensures var r := Bno055.ResumeRead(s, bus);
      r.delay == 2500000 && r.sensor.init == s.init && (s.read.ReadStart? ==> r.events == [])
  {
    hide V.Filtered, O.Filtered, Bno055.Six;
  }

  /** The timer runs for what the suspended coroutine asked for; at the first co_await of either coroutine the delay may
      be that of the other one, which has just handed over. */
  ghost predicate OrientationTimer(c: Context)
    requires c.sensor.Orientation?
  {
    || c.timer == Expired
    || (if c.mode.Offline? && !c.sensor.bno.init.InitStart? && !c.sensor.bno.init.BeforeProbe? then
          c.timer == Armed(InitWait(c.sensor.bno.init))
        else if c.mode.Online? && !c.sensor.bno.read.ReadStart? && !c.sensor.bno.read.BeforeStatus? then
          c.timer == Armed(2500000)
        else c.timer == Armed(2500000) || c.timer == Armed(10000000))
  }

  lemma OrientationDispatchWaits(c: Context, bus: Answers)
    requires Valid(c) && c.sensor.Orientation?
    ensures OrientationTimer(Dispatch(c, bus))
  {
    DispatchValid(c, bus);
    PromotedFirst(c, bus);
    hide Bno055.ResumeInit, Bno055.ResumeRead, InitWait, Valid;
    OrientationResumeWaits(c.sensor.bno, bus);
    ResumesArm(c.sensor, bus);
  }

  /** A sensor that changes sides is at the first co_await of both coroutines, or has just been registered. */
  lemma PromotedFirst(c: Context, bus: Answers)
    requires Valid(c) && c.sensor.Orientation?
    ensures var r, bno := Dispatch(c, bus), c.sensor.bno;
      && (c.mode.Online? && r.mode.Offline? ==> r.sensor.bno.init.BeforeProbe? || r.sensor.bno.init.InitStart?)
      && (c.mode.Offline? && r.mode.Online? ==> r.sensor.bno.read.BeforeStatus?)
  {
    hide Bno055.AllJustified, Bno055.Recorded, Bno055.ConfiguredSince, O.Filtered;
  }

  /** In every run of a BNO055. */
  lemma {:induction false} OrientationWaits(fd: nat, sensor: SensorState, steps: seq<Step>)
    requires sensor.Shaped() && sensor.Unstarted() && sensor.Orientation?
    ensures OrientationTimer(Run(Registered(fd, sensor), steps))
  {
    if steps == [] {
    } else {
      hide Valid, Dispatch, InitWait;
      var front, last := steps[..|steps| - 1], steps[|steps| - 1];
      OrientationWaits(fd, sensor, front);
      RegisteredValid(fd, sensor);
      RunValid(Registered(fd, sensor), front);
      var c := Run(Registered(fd, sensor), front);
      if last.Served? {
        OrientationDispatchWaits(c, last.bus);
      } else {
        ExpireKeeps(c);
      }
    }
  }
}
