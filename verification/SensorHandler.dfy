/** The handler object: it owns one context per sensor and serves the timer expiries that epoll reports. */
module SensorHandler {
  import opened Bus
  import opened SensorMachine
  import opened SensorSchedule
  import opened PressureSensor
  import opened OrientationSensor

  datatype Device = PressureDevice(ms: MS5837_I2C) | OrientationDevice(bno: BNO055_I2C)
  {
    function Footprint(): set<object> {
      match this
      case PressureDevice(ms) => ms.Footprint()
      case OrientationDevice(bno) => bno.Footprint()
    }

    ghost predicate Valid()
      reads Footprint()
    {
      match this
      case PressureDevice(ms) => ms.Valid()
      case OrientationDevice(bno) => bno.Valid()
    }

    ghost function View(): (s: SensorState)
      reads Footprint()
      ensures Valid() ==> s.Shaped()
    {
      match this
      case PressureDevice(ms) => Pressure(ms.View())
      case OrientationDevice(bno) => Orientation(bno.View())
    }
  }

  class SensorContext {
    const device: Device
    const fd: nat
    var readActive: bool
    var initActive: bool
    var mode: Mode
    var timer: Timer
    ghost var trace: seq<Event>

    function Footprint(): set<object> {
      {this} + device.Footprint()
    }

    ghost predicate Valid()
      reads Footprint()
    {
      device.Valid() && this !in device.Footprint()
    }

    ghost function View(): (c: Context)
      reads Footprint()
      ensures Valid() ==> c.sensor.Shaped()
      ensures c.fd == fd
    {
      Context(fd, device.View(), readActive, initActive, mode, timer, trace)
    }

    /** Both coroutines are created suspended, and the timer is set to 10 ms. */
    constructor (fd: nat, device: Device)
      requires device.Valid()
      ensures Valid() && this.fd == fd && this.device == device
      ensures View() == Registered(fd, old(device.View()))
    {
      hide MS5837_I2C.Valid, BNO055_I2C.Valid, MS5837_I2C.View, BNO055_I2C.View;
      this.fd, this.device := fd, device;
      readActive, initActive, mode, timer, trace := false, false, Online, SetTimer(SleepForMs(10)), [];
      new;
      assert this !in device.Footprint();
      assert device.Valid();
      assert device.View() == old(device.View());
    }

    /** Resumes ReadData and exchanges its flag for `true`. */
    method ResumeRead(bus: Answers) returns (delay: nat, wasActive: bool)
      requires Valid()
      modifies Footprint()
      ensures Valid()
      ensures var r := old(device.View().ResumeRead(bus));
        && View() == old(View()).(sensor := r.sensor, readActive := true, trace := old(trace) + r.events)
        && delay == r.delay && wasActive == Flag(old(readActive), r.yielded)
    {
      var yielded: Yield;
      ghost var events: seq<Event>;
      hide Ms5837.ResumeRead, Bno055.ResumeRead;
      hide MS5837_I2C.Footprint, MS5837_I2C.Valid, MS5837_I2C.View;
      hide BNO055_I2C.Footprint, BNO055_I2C.Valid, BNO055_I2C.View;
      match device {
        case PressureDevice(ms) => delay, yielded, events := ms.ResumeRead(bus);
        case OrientationDevice(bno) => delay, yielded, events := bno.ResumeRead(bus);
      }
      wasActive, readActive := Flag(readActive, yielded), true;
      trace := trace + events;
    }

    /** Resumes Init and exchanges its flag for `false`. */
    method ResumeInit(bus: Answers) returns (delay: nat, wasActive: bool)
      requires Valid()
      modifies Footprint()
      ensures Valid()
      ensures var r := old(device.View().ResumeInit(bus));
        && View() == old(View()).(sensor := r.sensor, initActive := false, trace := old(trace) + r.events)
        && delay == r.delay && wasActive == Flag(old(initActive), r.yielded)
    {
      var yielded: Yield;
      ghost var events: seq<Event>;
      hide Ms5837.ResumeInit, Bno055.ResumeInit;
      hide MS5837_I2C.Footprint, MS5837_I2C.Valid, MS5837_I2C.View;
      hide BNO055_I2C.Footprint, BNO055_I2C.Valid, BNO055_I2C.View;
      match device {
        case PressureDevice(ms) => delay, yielded, events := ms.ResumeInit(bus);
        case OrientationDevice(bno) => delay, yielded, events := bno.ResumeInit(bus);
      }
      wasActive, initActive := Flag(initActive, yielded), false;
      trace := trace + events;
    }

    /** Serves one expiry. */
    method Serve(bus: Answers)
      requires Valid()
      modifies Footprint()
      ensures Valid()
      ensures View() == old(Dispatch(View(), bus))
    {
      hide SensorState.ResumeRead, SensorState.ResumeInit, Device.Valid, Device.View, Device.Footprint;
      var delay, isOnline;
      match mode {
        case Online =>
          delay, isOnline := ResumeRead(bus);
          timer := SetTimer(delay);
          if !isOnline {
            mode := Offline;
          }
        case Offline =>
          delay, isOnline := ResumeInit(bus);
          timer := SetTimer(delay);
          if isOnline {
            mode := Online;
          }
      }
    }
  }

  class SensorHandler {
    var sensors: seq<SensorContext>

    ghost var Repr: set<object>

    /** No two sensors share an object. */
    ghost predicate Valid()
      reads this, Repr
    {
      && this in Repr
      && (forall i :: 0 <= i < |sensors| ==> Owned(sensors[i]) && sensors[i].Valid())
      && (forall i, j :: 0 <= i < j < |sensors| ==> sensors[i].Footprint() !! sensors[j].Footprint())
    }

    ghost predicate Owned(context: SensorContext)
      reads this
    {
      this !in context.Footprint() && context.Footprint() <= Repr
    }

    ghost function Views(): (views: seq<Context>)
      requires Valid()
      reads this, Repr
      ensures |views| == |sensors| && Shaped(views)
      ensures forall i :: 0 <= i < |views| ==> views[i].fd == sensors[i].fd
    {
      seq(|sensors|, i requires 0 <= i < |sensors| && Valid() reads this, Repr =>
        assert Owned(sensors[i]); sensors[i].View())
    }

    constructor ()
      ensures Valid() && Views() == []
    {
      sensors, Repr := [], {this};
    }

    /** Adds a context for the sensor; takes it out again when epoll does not track its timer. */
    method RegisterSensor(fd: nat, device: Device, tracked: bool) returns (ok: bool)
      requires Valid() && device.Valid()
      requires Repr !! device.Footprint()
      modifies this
      ensures Valid() && ok == tracked
      ensures fresh(Repr - old(Repr) - device.Footprint())
      ensures Views() == AfterRegister(old(Views()), fd, old(device.View()), tracked)
    {
      hide Registered, SensorContext.View, Device.Valid, Device.View, Device.Footprint;
      var context := new SensorContext(fd, device);
      ghost var before := sensors;
      Repr := Repr + context.Footprint();
      sensors := sensors + [context];
      assert sensors[..|sensors| - 1] == before;
      if tracked {
        return true;
      }
      sensors := sensors[..|sensors| - 1];
      return false;
    }

    method Find(fd: nat) returns (i: nat)
      requires Valid()
      ensures i == IndexOf(Views(), fd)
    {
      hide *;
      i := 0;
      while i < |sensors| && sensors[i].fd != fd
        invariant i <= |sensors|
        invariant forall j :: 0 <= j < i ==> sensors[j].fd != fd
      {
        i := i + 1;
      }
      IndexOfIs(Views(), fd, i);
    }

    /** One pass of the event loop over the descriptors that epoll returned. */
    method ServeBatch(fds: seq<nat>, answers: BatchAnswers)
      requires Valid()
      modifies Repr
      ensures Valid() && sensors == old(sensors) && Repr == old(Repr)
      ensures Views() == old(HandleBatch(Views(), fds, answers))
    {
      var n := 0;
      while n < |fds|
        invariant n <= |fds|
        invariant Valid() && sensors == old(sensors) && Repr == old(Repr)
        invariant Views() == old(HandleBatch(Views(), fds[..n], answers))
      {
        ServeEvent(fds[n], answers(fds[n]));
        assert fds[..n + 1][..n] == fds[..n];
        n := n + 1;
      }
      assert fds[..n] == fds;
    }

    method ServeEvent(fd: nat, bus: Answers)
      requires Valid()
      modifies Repr
      ensures Valid() && sensors == old(sensors) && Repr == old(Repr)
      ensures Views() == old(HandleEvent(Views(), fd, bus))
    {
      hide Dispatch, SensorContext.Valid, SensorContext.View, SensorContext.Footprint;
      var i := Find(fd);
      if i < |sensors| {
        assert Owned(sensors[i]);
        sensors[i].Serve(bus);
      }
    }
  }

  lemma IndexOfIs(contexts: seq<Context>, fd: nat, i: nat)
    requires i <= |contexts|
    requires forall j :: 0 <= j < i ==> contexts[j].fd != fd
    requires i < |contexts| ==> contexts[i].fd == fd
    ensures IndexOf(contexts, fd) == i
  {
  }
}
