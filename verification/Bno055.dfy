/** The coroutines of the BNO055 orientation sensor. */
module Bno055 {
  import opened Bus
  import opened Publications
  import opened Trigonometry
  import V = OrientationValues

  const ID: Byte := 0xA0

  const CHIP_ID: nat := 0x00
  const PAGE_ID: nat := 0x07
  const EULER: nat := 0x1A
  const LINEAR_ACCELERATION: nat := 0x28
  const TEMPERATURE: nat := 0x34
  const CALIBRATION_STATUS: nat := 0x35
  const OPERATION_MODE: nat := 0x3D
  const POWER_MODE: nat := 0x3E
  const SYSTEM_TRIGGER: nat := 0x3F

  const MODE_CONFIG: nat := 0x00
  const POWER_NORMAL: nat := 0x00
  const TRIGGER_RESET: nat := 0x20

  const MAX_POLLS: nat := 100

  /** Where Init is suspended. */
  datatype InitPoint = InitStart | BeforeProbe | Polling(failed: nat) | BeforePower | BeforePage | BeforeMode | Settling

  /** Where ReadData is suspended. */
  datatype ReadPoint = ReadStart | BeforeStatus | BeforeAcceleration | BeforeEuler | BeforeTemperature

  /** `taken` is what the filters have been fed so far. */
  datatype State = State(
    mode: nat, init: InitPoint, read: ReadPoint,
    status: Byte, acceleration: seq<Byte>, euler: seq<Byte>,
    taken: seq<Sample>, trig: Trig)
  {
    predicate Shaped() {
      init.Polling? ==> init.failed <= MAX_POLLS
    }
  }

  /** The first six bytes of the receive buffer. */
  function Six(a: Answer): seq<Byte> {
    [a.At(0), a.At(1), a.At(2), a.At(3), a.At(4), a.At(5)]
  }

  // ---------------------------------------------------------------- Init

  function Restart(s: State, events: seq<Event>): Resumed<State> {
    Resumed(s.(init := BeforeProbe), SleepForMs(10), Nothing, events)
  }

  function ResumeInit(s: State, bus: Answers): (r: Resumed<State>)
    requires s.Shaped()
    ensures r.sensor.Shaped()
  {
    match s.init
    case InitStart =>
      Restart(s, [])
    case BeforeProbe =>
      var e0 := Access(ReadByteFromRegister(CHIP_ID), bus(0));
      var e1 := Access(WriteByteToRegister(OPERATION_MODE, MODE_CONFIG), bus(1));
      var e2 := Access(WriteByteToRegister(SYSTEM_TRIGGER, TRIGGER_RESET), bus(2));
      if bus(0).At(0) != ID || !bus(0).ok then Restart(s, [e0])
      else if !bus(1).ok then Restart(s, [e0, e1])
      else if !bus(2).ok then Restart(s, [e0, e1, e2])
      else Resumed(s.(init := Polling(0)), SleepForMs(50), Nothing, [e0, e1, e2])
    case Polling(failed) =>
      var e0 := Access(ReadByteFromRegister(CHIP_ID), bus(0));
      if bus(0).At(0) == ID then Resumed(s.(init := BeforePower), SleepForMs(50), Nothing, [e0])
      else if failed == MAX_POLLS then Restart(s, [e0])
      else Resumed(s.(init := Polling(failed + 1)), SleepForMs(30), Nothing, [e0])
    case BeforePower =>
      var e0 := Access(WriteByteToRegister(POWER_MODE, POWER_NORMAL), bus(0));
      if !bus(0).ok then Restart(s, [e0])
      else Resumed(s.(init := BeforePage), SleepForMs(10), Nothing, [e0])
    case BeforePage =>
      var e0 := Access(WriteByteToRegister(PAGE_ID, 0), bus(0));
      var e1 := Access(WriteByteToRegister(SYSTEM_TRIGGER, 0), bus(1));
      if !bus(0).ok then Restart(s, [e0])
      else if !bus(1).ok then Restart(s, [e0, e1])
      else Resumed(s.(init := BeforeMode), SleepForMs(30), Nothing, [e0, e1])
    case BeforeMode =>
      var e0 := Access(WriteByteToRegister(OPERATION_MODE, s.mode), bus(0));
      if !bus(0).ok then Restart(s, [e0])
      else Resumed(s.(init := Settling), SleepForMs(100), Nothing, [e0])
    case Settling =>
      Resumed(s.(init := BeforeProbe), SleepForMs(10), Yields(true), [])
  }

  // ---------------------------------------------------------------- ReadData

  /** Leaving the sampling loop: the flag is cleared and the next pass waits at the first co_await. */
  function Broken(s: State, events: seq<Event>): Resumed<State> {
    Resumed(s.(read := BeforeStatus), SleepForUs(2500), Yields(false), events)
  }

  function ResumeRead(s: State, bus: Answers): (r: Resumed<State>)
    ensures s.Shaped() ==> r.sensor.Shaped()
  {
    match s.read
    case ReadStart =>
      Resumed(s.(read := BeforeStatus), SleepForUs(2500), Nothing, [])
    case BeforeStatus =>
      var e0 := Access(ReadByteFromRegister(CALIBRATION_STATUS), bus(0));
      if !bus(0).ok then Broken(s, [e0])
      else Resumed(s.(read := BeforeAcceleration, status := bus(0).At(0)), SleepForUs(2500), Nothing, [e0])
    case BeforeAcceleration =>
      var e0 := Access(ReadFromRegister(LINEAR_ACCELERATION, 6), bus(0));
      if !bus(0).ok then Broken(s, [e0])
      else Resumed(s.(read := BeforeEuler, acceleration := Six(bus(0))), SleepForUs(2500), Nothing, [e0])
    case BeforeEuler =>
      var e0 := Access(ReadFromRegister(EULER, 6), bus(0));
      if !bus(0).ok then Broken(s, [e0])
      else Resumed(s.(read := BeforeTemperature, euler := Six(bus(0))), SleepForUs(2500), Nothing, [e0])
    case BeforeTemperature =>
      var e0 := Access(ReadByteFromRegister(TEMPERATURE), bus(0));
      if !bus(0).ok then Broken(s, [e0])
      else
        var sample := OrientationSample(s.status, s.acceleration, s.euler, bus(0).At(0));
        var taken := s.taken + [sample];
        Resumed(s.(read := BeforeStatus, taken := taken), SleepForUs(2500), Nothing,
                [e0, Publish(sample, V.Filtered(taken, s.trig))])
  }

  lemma ResumesArm(s: State, bus: Answers)
    requires s.Shaped()
    ensures Arms(ResumeInit(s, bus).delay) && |ResumeInit(s, bus).events| <= 3
    ensures Arms(ResumeRead(s, bus).delay) && |ResumeRead(s, bus).events| <= 2
  {
    hide Six, V.Filtered;
  }

  /** Init starts over if and only if a write was not acknowledged, the first identity was refused or wrong, or the
      hundred-and-first poll in a row was still wrong; whether a poll is acknowledged does not matter. */
  lemma InitRestartsExactly(s: State, bus: Answers)
    requires s.Shaped() && !s.init.InitStart?
    ensures var r := ResumeInit(s, bus);
      r.sensor.init.BeforeProbe? && r.yielded == Nothing <==>
        match s.init
        case BeforeProbe => Refused(r.events) || bus(0).At(0) != 0xA0
        case Polling(failed) => bus(0).At(0) != 0xA0 && failed == 100
        case Settling => false
        case _ => Refused(r.events)
  {
    var r := ResumeInit(s, bus);
    if r.events != [] {
      assert !r.events[|r.events| - 1].answer.ok && r.events[|r.events| - 1].Access? ==> Refused(r.events);
    }
  }

  /** A pass of ReadData breaks off if and only if its access was not acknowledged, and publishes if and only if the
      last one was. */
  lemma ReadBreaksExactly(s: State, bus: Answers)
    ensures var r := ResumeRead(s, bus);
      && (r.yielded == Yields(false) <==> Refused(r.events))
      && (Publishes(r.events) <==> s.read.BeforeTemperature? && bus(0).ok)
      && (r.yielded == Nothing ==>
           r.sensor.read == match s.read
             case ReadStart => BeforeStatus
             case BeforeStatus => BeforeAcceleration
             case BeforeAcceleration => BeforeEuler
             case BeforeEuler => BeforeTemperature
             case BeforeTemperature => BeforeStatus)
  {
    hide Six, V.Filtered;
    var r := ResumeRead(s, bus);
    assert r.yielded == Yields(false) ==> r.events[0].Access? && !r.events[0].answer.ok;
  }

  // ---------------------------------------------------------------- the traces they leave

  predicate SamplingOp(op: Op) {
    || op == ReadByteFromRegister(CALIBRATION_STATUS)
    || op == ReadFromRegister(LINEAR_ACCELERATION, 6)
    || op == ReadFromRegister(EULER, 6)
    || op == ReadByteFromRegister(TEMPERATURE)
  }

  /** A step of undisturbed sampling. */
  predicate Sampling(e: Event) {
    e.Publish? || (SamplingOp(e.op) && e.answer.ok)
  }

  predicate FailedSampling(e: Event) {
    e.Access? && SamplingOp(e.op) && !e.answer.ok
  }

  /** The number of accesses of an initialisation in which `polls` identity polls fail. */
  function PassLength(polls: nat): nat {
    polls + 8
  }

  /** The n-th access of such an initialisation: identity, configuration mode, reset, failed polls, identity,
      normal power, page 0, trigger 0, requested mode. */
  predicate Fits(mode: nat, polls: nat, n: nat, e: Event) {
    if n == 0 then Acknowledged(e, ReadByteFromRegister(CHIP_ID)) && e.answer.At(0) == ID
    else if n == 1 then Acknowledged(e, WriteByteToRegister(OPERATION_MODE, MODE_CONFIG))
    else if n == 2 then Acknowledged(e, WriteByteToRegister(SYSTEM_TRIGGER, TRIGGER_RESET))
    else if n < 3 + polls then IsAccess(e, ReadByteFromRegister(CHIP_ID)) && e.answer.At(0) != ID
    else if n == 3 + polls then IsAccess(e, ReadByteFromRegister(CHIP_ID)) && e.answer.At(0) == ID
    else if n == 4 + polls then Acknowledged(e, WriteByteToRegister(POWER_MODE, POWER_NORMAL))
    else if n == 5 + polls then Acknowledged(e, WriteByteToRegister(PAGE_ID, 0))
    else if n == 6 + polls then Acknowledged(e, WriteByteToRegister(SYSTEM_TRIGGER, 0))
    else Acknowledged(e, WriteByteToRegister(OPERATION_MODE, mode))
  }

  /** The first `length` accesses of an initialisation, from position i. */
  predicate PassFrom(trace: seq<Event>, i: nat, mode: nat, polls: nat, length: nat) {
    && i + length <= |trace|
    && polls <= MAX_POLLS
    && forall m :: i <= m < i + length ==> Fits(mode, polls, m - i, trace[m])
  }

  /** Sampling undisturbed since a complete initialisation that started at i. */
  predicate ConfiguredSince(trace: seq<Event>, i: nat, polls: nat, end: nat, mode: nat)
    requires end <= |trace|
  {
    && i + PassLength(polls) <= end
    && PassFrom(trace, i, mode, polls, PassLength(polls))
    && forall m :: i + PassLength(polls) <= m < end ==> Sampling(trace[m])
  }

  /** The accesses made so far by the sampling pass, by where it is suspended. */
  predicate PartialPass(trace: seq<Event>, read: ReadPoint, status: Byte, acceleration: seq<Byte>, euler: seq<Byte>) {
    var n := |trace|;
    match read
    case ReadStart => true
    case BeforeStatus => true
    case BeforeAcceleration =>
      n >= 1 && StatusAt(trace[n - 1], status)
    case BeforeEuler =>
      n >= 2 && StatusAt(trace[n - 2], status) && BlockAt(trace[n - 1], LINEAR_ACCELERATION, acceleration)
    case BeforeTemperature =>
      n >= 3 && StatusAt(trace[n - 3], status) && BlockAt(trace[n - 2], LINEAR_ACCELERATION, acceleration)
      && BlockAt(trace[n - 1], EULER, euler)
  }

  predicate StatusAt(e: Event, status: Byte) {
    Acknowledged(e, ReadByteFromRegister(CALIBRATION_STATUS)) && e.answer.At(0) == status
  }

  predicate BlockAt(e: Event, register: nat, block: seq<Byte>) {
    Acknowledged(e, ReadFromRegister(register, 6)) && Six(e.answer) == block
  }

  /** The raw sample taken at k: four acknowledged accesses in a row, in an undisturbed run of passes since the
      last complete initialisation. */
  ghost predicate Justified(trace: seq<Event>, k: nat, mode: nat)
    requires k < |trace| && trace[k].Publish?
  {
    && trace[k].sample.OrientationSample?
    && k >= 4
    && StatusAt(trace[k - 4], trace[k].sample.status)
    && BlockAt(trace[k - 3], LINEAR_ACCELERATION, trace[k].sample.acceleration)
    && BlockAt(trace[k - 2], EULER, trace[k].sample.euler)
    && Acknowledged(trace[k - 1], ReadByteFromRegister(TEMPERATURE))
    && trace[k - 1].answer.At(0) == trace[k].sample.temperature
    && exists i: nat, polls: nat :: ConfiguredSince(trace, i, polls, k, mode)
  }

  /** Behind a sample, with the register numbers of the device: status, six bytes of linear acceleration, six of Euler
      angles and temperature, each read successfully, and the bytes of the sample as they were read. */
  lemma JustifiedAccesses(trace: seq<Event>, k: nat, mode: nat)
    requires k < |trace| && trace[k].Publish? && Justified(trace, k, mode)
    ensures k >= 4 && trace[k].sample.OrientationSample?
    ensures Acknowledged(trace[k - 4], ReadByteFromRegister(0x35))
    ensures Acknowledged(trace[k - 3], ReadFromRegister(0x28, 6))
    ensures Acknowledged(trace[k - 2], ReadFromRegister(0x1A, 6))
    ensures Acknowledged(trace[k - 1], ReadByteFromRegister(0x34))
    ensures var s := trace[k].sample;
      && s.status == trace[k - 4].answer.At(0) && s.temperature == trace[k - 1].answer.At(0)
      && |s.acceleration| == |s.euler| == 6
      && forall j :: 0 <= j < 6 ==>
           s.acceleration[j] == trace[k - 3].answer.At(j) && s.euler[j] == trace[k - 2].answer.At(j)
  {
    hide ConfiguredSince;
  }

  /** A complete initialisation in the numbers of the device: identity 0xA0, configuration mode, reset, identity again
      after at most 100 failed polls, normal power, page 0, trigger 0 and the requested mode. */
  lemma ConfigurationAccesses(trace: seq<Event>, i: nat, mode: nat, polls: nat)
    requires PassFrom(trace, i, mode, polls, polls + 8)
    ensures polls <= 100 && i + polls + 8 <= |trace|
    ensures Acknowledged(trace[i], ReadByteFromRegister(0x00)) && trace[i].answer.At(0) == 0xA0
    ensures Acknowledged(trace[i + 1], WriteByteToRegister(0x3D, 0x00))
    ensures Acknowledged(trace[i + 2], WriteByteToRegister(0x3F, 0x20))
    ensures forall m :: i + 3 <= m < i + 3 + polls ==>
      IsAccess(trace[m], ReadByteFromRegister(0x00)) && trace[m].answer.At(0) != 0xA0
    ensures IsAccess(trace[i + 3 + polls], ReadByteFromRegister(0x00)) && trace[i + 3 + polls].answer.At(0) == 0xA0
    ensures Acknowledged(trace[i + 4 + polls], WriteByteToRegister(0x3E, 0x00))
    ensures Acknowledged(trace[i + 5 + polls], WriteByteToRegister(0x07, 0x00))
    ensures Acknowledged(trace[i + 6 + polls], WriteByteToRegister(0x3F, 0x00))
    ensures Acknowledged(trace[i + 7 + polls], WriteByteToRegister(0x3D, mode))
  {
  }

  ghost predicate AllJustified(trace: seq<Event>, mode: nat) {
    forall k :: 0 <= k < |trace| && trace[k].Publish? ==> Justified(trace, k, mode)
  }

  /** The trace ends with the first `length` accesses of an initialisation. */
  ghost predicate EndsWithPass(trace: seq<Event>, mode: nat, polls: nat, length: nat) {
    |trace| >= length && PassFrom(trace, |trace| - length, mode, polls, length)
  }

  /** The trace ends with everything up to the `after`-th access after the failed polls. */
  ghost predicate PastPolls(trace: seq<Event>, mode: nat, after: nat, polls: nat) {
    EndsWithPass(trace, mode, polls, polls + after)
  }

  /** What the position of Init says about the trace. */
  ghost predicate InitTrace(s: State, trace: seq<Event>) {
    match s.init
    case InitStart => true
    case BeforeProbe => true
    case Polling(failed) => PastPolls(trace, s.mode, 3, failed)
    case BeforePower => exists p: nat :: PastPolls(trace, s.mode, 4, p)
    case BeforePage => exists p: nat :: PastPolls(trace, s.mode, 5, p)
    case BeforeMode => exists p: nat :: PastPolls(trace, s.mode, 7, p)
    case Settling => exists p: nat :: PastPolls(trace, s.mode, 8, p)
  }

  /** What the position of ReadData says about the trace while the sensor is online. */
  ghost predicate ReadTrace(s: State, trace: seq<Event>) {
    && PartialPass(trace, s.read, s.status, s.acceleration, s.euler)
    && exists i: nat, polls: nat :: ConfiguredSince(trace, i, polls, |trace|, s.mode)
  }

  // ---------------------------------------------------------------- one resume preserves them

  lemma ConfiguredExtends(trace: seq<Event>, events: seq<Event>, i: nat, polls: nat, end: nat, mode: nat)
    requires end <= |trace| && ConfiguredSince(trace, i, polls, end, mode)
    ensures ConfiguredSince(trace + events, i, polls, end, mode)
  {
    hide Fits, Sampling;
  }

  lemma JustifiedExtends(trace: seq<Event>, events: seq<Event>, k: nat, mode: nat)
    requires k < |trace| && trace[k].Publish? && Justified(trace, k, mode)
    ensures Justified(trace + events, k, mode)
  {
    var i: nat, polls: nat :| ConfiguredSince(trace, i, polls, k, mode);
    hide ConfiguredSince, StatusAt, BlockAt;
    ConfiguredExtends(trace, events, i, polls, k, mode);
  }

  lemma AllJustifiedExtends(trace: seq<Event>, events: seq<Event>, mode: nat)
    requires AllJustified(trace, mode) && forall j :: 0 <= j < |events| ==> events[j].Access?
    ensures AllJustified(trace + events, mode)
  {
    hide Justified;
    forall k | 0 <= k < |trace + events| && (trace + events)[k].Publish?
      ensures Justified(trace + events, k, mode)
    {
      if k < |trace| {
        JustifiedExtends(trace, events, k, mode);
      }
    }
  }

  /** One more access that fits continues the pass. */
  lemma PastPollsContinues(trace: seq<Event>, e: Event, mode: nat, after: nat, polls: nat)
    requires PastPolls(trace, mode, after, polls) && Fits(mode, polls, polls + after, e)
    ensures PastPolls(trace + [e], mode, after + 1, polls)
  {
    hide Fits, EndsWithPass;
    PassContinues(trace, e, mode, polls, polls + after);
  }

  lemma PassContinues(trace: seq<Event>, e: Event, mode: nat, polls: nat, length: nat)
    requires EndsWithPass(trace, mode, polls, length) && Fits(mode, polls, length, e)
    ensures EndsWithPass(trace + [e], mode, polls, length + 1)
  {
    hide Fits;
    var i := |trace| - length;
    var trace' := trace + [e];
    forall m | i <= m < i + length + 1
      ensures Fits(mode, polls, m - i, trace'[m])
    {
      if m < |trace| {
        assert trace'[m] == trace[m];
      }
    }
  }

  /** A failed poll counts as one more. */
  lemma PollFails(trace: seq<Event>, e: Event, mode: nat, polls: nat)
    requires EndsWithPass(trace, mode, polls, 3 + polls) && polls < MAX_POLLS
    requires IsAccess(e, ReadByteFromRegister(CHIP_ID)) && e.answer.At(0) != ID
    ensures EndsWithPass(trace + [e], mode, polls + 1, 3 + (polls + 1))
  {
    var i := |trace| - (3 + polls);
    forall m | i <= m < i + 3 + polls
      ensures Fits(mode, polls + 1, m - i, trace[m])
    {
      assert Fits(mode, polls, m - i, trace[m]);
    }
    assert EndsWithPass(trace, mode, polls + 1, 3 + polls);
    PassContinues(trace, e, mode, polls + 1, 3 + polls);
  }

  lemma InitShape(s: State, bus: Answers)
    requires s.Shaped()
    ensures var r := ResumeInit(s, bus);
      && r.sensor.read == s.read && r.sensor.mode == s.mode && r.sensor.init != InitStart
      && (r.yielded == Nothing || (r.yielded == Yields(true) && s.init == Settling && r.sensor.init == BeforeProbe))
      && (r.yielded == Yields(true) ==> r.events == [])
      && (forall j :: 0 <= j < |r.events| ==> r.events[j].Access?)
  {
  }

  lemma InitPreserves(s: State, trace: seq<Event>, bus: Answers)
    requires s.Shaped() && AllJustified(trace, s.mode) && InitTrace(s, trace)
    ensures var r := ResumeInit(s, bus);
      && AllJustified(trace + r.events, s.mode)
      && InitTrace(r.sensor, trace + r.events)
      && r.sensor.read == s.read && r.sensor.mode == s.mode && r.sensor.init != InitStart
      && (r.yielded == Nothing || r.yielded == Yields(true))
      && (r.yielded == Yields(true) ==>
           && r.sensor.init == BeforeProbe
           && exists i: nat, polls: nat :: ConfiguredSince(trace + r.events, i, polls, |trace + r.events|, s.mode))
  {
    var r := ResumeInit(s, bus);
    InitShape(s, bus);
    InitAdvances(s, trace, bus);
    if r.yielded == Yields(true) {
      var p: nat :| PastPolls(trace, s.mode, 8, p);
      hide Fits, Justified;
      assert trace + r.events == trace;
      assert ConfiguredSince(trace, |trace| - (8 + p), p, |trace|, s.mode);
    }
    hide *;
    AllJustifiedExtends(trace, r.events, s.mode);
  }

  lemma InitAdvances(s: State, trace: seq<Event>, bus: Answers)
    requires s.Shaped() && InitTrace(s, trace)
    ensures var r := ResumeInit(s, bus);
      InitTrace(r.sensor, trace + r.events)
  {
    var r := ResumeInit(s, bus);
    var trace' := trace + r.events;
    hide PassFrom;
    match s.init
    case InitStart =>
    case BeforeProbe =>
      if r.sensor.init.Polling? {
        assert trace' == trace + [r.events[0]] + [r.events[1]] + [r.events[2]];
        assert EndsWithPass(trace, s.mode, 0, 0) by {
          EmptyPass(trace, s.mode);
        }
        PassContinues(trace, r.events[0], s.mode, 0, 0);
        PassContinues(trace + [r.events[0]], r.events[1], s.mode, 0, 1);
        PassContinues(trace + [r.events[0]] + [r.events[1]], r.events[2], s.mode, 0, 2);
      }
    case Polling(failed) =>
      if r.sensor.init.BeforePower? {
        PastPollsContinues(trace, r.events[0], s.mode, 3, failed);
      } else if r.sensor.init.Polling? {
        PollFails(trace, r.events[0], s.mode, failed);
      }
    case BeforePower =>
      var p: nat :| PastPolls(trace, s.mode, 4, p);
      if r.sensor.init.BeforePage? {
        PastPollsContinues(trace, r.events[0], s.mode, 4, p);
      }
    case BeforePage =>
      var p: nat :| PastPolls(trace, s.mode, 5, p);
      if r.sensor.init.BeforeMode? {
        assert trace' == trace + [r.events[0]] + [r.events[1]];
        PastPollsContinues(trace, r.events[0], s.mode, 5, p);
        PastPollsContinues(trace + [r.events[0]], r.events[1], s.mode, 6, p);
      }
    case BeforeMode =>
      var p: nat :| PastPolls(trace, s.mode, 7, p);
      if r.sensor.init.Settling? {
        PastPollsContinues(trace, r.events[0], s.mode, 7, p);
      }
    case Settling =>
  }

  lemma EmptyPass(trace: seq<Event>, mode: nat)
    ensures PassFrom(trace, |trace|, mode, 0, 0)
  {
  }

  lemma ReadShape(s: State, bus: Answers)
    requires s.read != ReadStart
    ensures var r := ResumeRead(s, bus);
      && r.sensor.init == s.init && r.sensor.mode == s.mode && r.sensor.read != ReadStart
      && (r.yielded == Nothing || r.yielded == Yields(false))
      && (r.yielded == Yields(false) ==> r.sensor.read == BeforeStatus)
      && (r.yielded == Yields(false) || s.read != BeforeTemperature ==>
           forall j :: 0 <= j < |r.events| ==> r.events[j].Access?)
      && (r.yielded == Nothing ==> forall j :: 0 <= j < |r.events| ==> Sampling(r.events[j]))
  {
    hide V.Filtered;
  }

  /** A resume that takes a sample publishes it last; any other only makes accesses. */
  lemma ReadRecords(s: State, bus: Answers)
    ensures var r := ResumeRead(s, bus);
      && r.sensor.trig == s.trig
      && PublishesLast(r.events)
      && if Publishes(r.events) then
           var e := r.events[|r.events| - 1];
           r.sensor.taken == s.taken + [e.sample] && e.data == V.Filtered(r.sensor.taken, s.trig)
         else r.sensor.taken == s.taken
  {
    hide V.Filtered, Six;
  }

  /** The filters have been fed the samples of the trace, and each publication is what they made of those up to and
      including its own. */
  ghost predicate Recorded(s: State, trace: seq<Event>) {
    s.taken == SamplesOf(trace) && Made(trace, V.Maker(s.trig))
  }

  lemma InitRecorded(s: State, trace: seq<Event>, bus: Answers)
    requires s.Shaped() && Recorded(s, trace)
    ensures var r := ResumeInit(s, bus); Recorded(r.sensor, trace + r.events)
  {
    var r := ResumeInit(s, bus);
    assert r.sensor.taken == s.taken && r.sensor.trig == s.trig;
    assert forall j :: 0 <= j < |r.events| ==> r.events[j].Access?;
    hide ResumeInit, V.Maker, Made, SamplesOf;
    AccessesRecorded(trace, r.events, V.Maker(s.trig));
  }

  lemma ReadRecorded(s: State, trace: seq<Event>, bus: Answers)
    requires Recorded(s, trace)
    ensures var r := ResumeRead(s, bus); Recorded(r.sensor, trace + r.events)
  {
    var r := ResumeRead(s, bus);
    ReadRecords(s, bus);
    hide ResumeRead, V.Filtered, Made, SamplesOf;
    ResumeRecorded(trace, r.events, V.Maker(s.trig));
  }


  lemma SamplingExtends(trace: seq<Event>, events: seq<Event>, i: nat, polls: nat, mode: nat)
    requires ConfiguredSince(trace, i, polls, |trace|, mode) && forall j :: 0 <= j < |events| ==> Sampling(events[j])
    ensures ConfiguredSince(trace + events, i, polls, |trace + events|, mode)
  {
    ConfiguredExtends(trace, events, i, polls, |trace|, mode);
    hide PassFrom, Sampling;
  }

  lemma ReadPreserves(s: State, trace: seq<Event>, bus: Answers)
    requires AllJustified(trace, s.mode) && ReadTrace(s, trace) && s.read != ReadStart
    ensures var r := ResumeRead(s, bus);
      && AllJustified(trace + r.events, s.mode)
      && r.sensor.init == s.init && r.sensor.mode == s.mode
      && (r.yielded == Nothing || r.yielded == Yields(false))
      && (r.yielded == Nothing ==> ReadTrace(r.sensor, trace + r.events) && r.sensor.read != ReadStart)
      && (r.yielded == Yields(false) ==> r.sensor.read == BeforeStatus)
  {
    hide V.Filtered;
    var r := ResumeRead(s, bus);
    var i: nat, polls: nat :| ConfiguredSince(trace, i, polls, |trace|, s.mode);
    ReadShape(s, bus);
    if r.yielded == Yields(false) {
      hide *;
      AllJustifiedExtends(trace, r.events, s.mode);
    } else if s.read.BeforeTemperature? {
      PublishJustified(s, trace, bus, i, polls);
    } else {
      ReadAdvances(s, trace, bus, i, polls);
      hide *;
      AllJustifiedExtends(trace, r.events, s.mode);
    }
  }

  lemma ReadAdvances(s: State, trace: seq<Event>, bus: Answers, i: nat, polls: nat)
    requires ReadTrace(s, trace) && s.read != ReadStart && s.read != BeforeTemperature
    requires ResumeRead(s, bus).yielded == Nothing && ConfiguredSince(trace, i, polls, |trace|, s.mode)
    ensures var r := ResumeRead(s, bus);
      ReadTrace(r.sensor, trace + r.events)
  {
    hide ConfiguredSince, Six, V.Filtered;
    var r := ResumeRead(s, bus);
    ReadShape(s, bus);
    SamplingExtends(trace, r.events, i, polls, s.mode);
  }

  lemma PublishJustified(s: State, trace: seq<Event>, bus: Answers, i: nat, polls: nat)
    requires AllJustified(trace, s.mode) && ReadTrace(s, trace) && s.read.BeforeTemperature?
    requires ResumeRead(s, bus).yielded == Nothing && ConfiguredSince(trace, i, polls, |trace|, s.mode)
    ensures var r := ResumeRead(s, bus);
      AllJustified(trace + r.events, s.mode) && ReadTrace(r.sensor, trace + r.events)
  {
    hide PassFrom, Sampling, Six, V.Filtered;
    var r := ResumeRead(s, bus);
    var trace' := trace + r.events;
    var k := |trace| + 1;
    ReadShape(s, bus);
    SamplingExtends(trace, r.events, i, polls, s.mode);
    assert ConfiguredSince(trace', i, polls, k, s.mode);
    assert trace'[k] == r.events[1] && trace'[k - 1] == r.events[0];
    assert Justified(trace', k, s.mode);
    hide Justified;
    forall j | 0 <= j < |trace'| && trace'[j].Publish?
      ensures Justified(trace', j, s.mode)
    {
      if j < |trace| {
        JustifiedExtends(trace, r.events, j, s.mode);
      }
    }
  }

  lemma PassOps(trace: seq<Event>, i: nat, mode: nat, polls: nat, m: nat)
    requires PassFrom(trace, i, mode, polls, PassLength(polls)) && i <= m < i + PassLength(polls)
    ensures trace[m].Access? && !SamplingOp(trace[m].op)
  {
    assert Fits(mode, polls, m - i, trace[m]);
  }

  /** A failed sampling access lies before the whole initialisation that a later sample relies on. */
  lemma FailureForcesInit(trace: seq<Event>, m: nat, i: nat, polls: nat, end: nat, mode: nat)
    requires m < end <= |trace| && FailedSampling(trace[m]) && ConfiguredSince(trace, i, polls, end, mode)
    ensures m < i
  {
    hide PassFrom;
    if i <= m < i + PassLength(polls) {
      PassOps(trace, i, mode, polls, m);
    }
  }
}
