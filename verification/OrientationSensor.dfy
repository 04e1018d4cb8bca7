/** The BNO055 sensor object: its two coroutines update the fields that the machine of `Bno055` describes. */
module OrientationSensor {
  import opened Bus
  import opened Bno055
  import opened Trigonometry
  import V = OrientationValues

  class BNO055_I2C {
    const mode: nat
    var init: InitPoint
    var read: ReadPoint
    var status: Byte
    var acceleration: seq<Byte>
    var euler: seq<Byte>
    const filters: V.Filters
    var data: Data

    ghost var taken: seq<Sample>

    function Footprint(): set<object> {
      {this} + filters.Footprint()
    }

    ghost function View(): State
      reads Footprint()
    {
      State(mode, init, read, status, acceleration, euler, taken, filters.trig)
    }

    /** The filters have been fed the samples taken so far, and the data offered is their last answer. */
    ghost predicate Valid()
      reads Footprint()
    {
      && View().Shaped()
      && this !in filters.Footprint()
      && filters.Fed(taken)
      && data == V.Filtered(taken, filters.trig)
    }

    constructor (mode: nat, trig: Trig)
      ensures Valid() && fresh(Footprint())
      ensures View() == State(mode, InitStart, ReadStart, 0, [], [], [], trig)
    {
      hide V.Filters.Fed, V.Filters.Empty;
      this.mode := mode;
      init, read, status, acceleration, euler := InitStart, ReadStart, 0, [], [];
      filters := new V.Filters(trig);
      data := V.INITIAL;
      taken := [];
      new;
      filters.EmptyIsFed();
    }

    /** What readers of the sensor get: what was published last. */
    method GetData() returns (d: Data)
      requires Valid()
      ensures d == V.Filtered(View().taken, filters.trig)
    {
      d := data;
    }

    method ResumeInit(bus: Answers) returns (delay: nat, yielded: Yield, ghost events: seq<Event>)
      requires Valid()
      modifies Footprint()
      ensures Valid()
      ensures Resumed(View(), delay, yielded, events) == old(Bno055.ResumeInit(View(), bus))
    {
      hide V.Filters.Fed, V.Filters.Footprint, V.Filtered;
      var point := init;
      init, delay, yielded, events := BeforeProbe, SleepForMs(10), Nothing, [];
      match point {
        case InitStart =>
        case BeforeProbe =>
          events := [Access(ReadByteFromRegister(CHIP_ID), bus(0))];
          if bus(0).At(0) != ID || !bus(0).ok { return; }
          events := events + [Access(WriteByteToRegister(OPERATION_MODE, MODE_CONFIG), bus(1))];
          if !bus(1).ok { return; }
          events := events + [Access(WriteByteToRegister(SYSTEM_TRIGGER, TRIGGER_RESET), bus(2))];
          if !bus(2).ok { return; }
          init, delay := Polling(0), SleepForMs(50);
        case Polling(failed) =>
          events := [Access(ReadByteFromRegister(CHIP_ID), bus(0))];
          if bus(0).At(0) == ID {
            init, delay := BeforePower, SleepForMs(50);
          } else if failed != MAX_POLLS {
            init, delay := Polling(failed + 1), SleepForMs(30);
          }
        case BeforePower =>
          events := [Access(WriteByteToRegister(POWER_MODE, POWER_NORMAL), bus(0))];
          if !bus(0).ok { return; }
          init := BeforePage;
        case BeforePage =>
          events := [Access(WriteByteToRegister(PAGE_ID, 0), bus(0))];
          if !bus(0).ok { return; }
          events := events + [Access(WriteByteToRegister(SYSTEM_TRIGGER, 0), bus(1))];
          if !bus(1).ok { return; }
          init, delay := BeforeMode, SleepForMs(30);
        case BeforeMode =>
          events := [Access(WriteByteToRegister(OPERATION_MODE, mode), bus(0))];
          if !bus(0).ok { return; }
          init, delay := Settling, SleepForMs(100);
        case Settling =>
          yielded := Yields(true);
      }
    }

    method ResumeRead(bus: Answers) returns (delay: nat, yielded: Yield, ghost events: seq<Event>)
      requires Valid()
      modifies Footprint()
      ensures Valid()
      ensures Resumed(View(), delay, yielded, events) == old(Bno055.ResumeRead(View(), bus))
    {
      hide Six, V.Filters.Fed, V.Filters.Footprint, V.Filtered;
      delay, yielded, events := SleepForUs(2500), Nothing, [];
      var point := read;
      read := BeforeStatus;
      match point {
        case ReadStart =>
        case BeforeStatus =>
          events := [Access(ReadByteFromRegister(CALIBRATION_STATUS), bus(0))];
          if !bus(0).ok { yielded := Yields(false); return; }
          read, status := BeforeAcceleration, bus(0).At(0);
        case BeforeAcceleration =>
          events := [Access(ReadFromRegister(LINEAR_ACCELERATION, 6), bus(0))];
          if !bus(0).ok { yielded := Yields(false); return; }
          read, acceleration := BeforeEuler, Six(bus(0));
        case BeforeEuler =>
          events := [Access(ReadFromRegister(EULER, 6), bus(0))];
          if !bus(0).ok { yielded := Yields(false); return; }
          read, euler := BeforeTemperature, Six(bus(0));
        case BeforeTemperature =>
          events := [Access(ReadByteFromRegister(TEMPERATURE), bus(0))];
          if !bus(0).ok { yielded := Yields(false); return; }
          var sample := OrientationSample(status, acceleration, euler, bus(0).At(0));
          data := filters.Apply(taken, sample);
          taken := taken + [sample];
          events := events + [Publish(sample, data)];
      }
    }
  }
}
