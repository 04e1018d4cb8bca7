/** The I2C bus as an oracle, and what one resume of a sensor coroutine does with it. */
module Bus {

  type Byte = bv8

  datatype Op =
    | WriteByte(value: nat)
    | Read(count: nat)
    | ReadByteFromRegister(register: nat)
    | ReadFromRegister(register: nat, count: nat)
    | WriteByteToRegister(register: nat, value: nat)

  /** Whether the transfer succeeded, and the content of the receive buffer after it. */
  datatype Answer = Answer(ok: bool, data: seq<Byte>)
  {
    /** Receive buffers start out zeroed. */
    function At(i: nat): Byte {
      if i < |data| then data[i] else 0
    }
  }

  /** The answers to the accesses of one resume, in order. */
  type Answers = nat -> Answer

  /** What was read to compute one sample, before any arithmetic. */
  datatype Sample =
    | PressureSample(d1: nat, d2: nat, calibration: seq<bv16>)
    | OrientationSample(status: Byte, acceleration: seq<Byte>, euler: seq<Byte>, temperature: Byte)

  datatype Axes = Axes(x: real, y: real, z: real)

  /** What a sensor offers to its readers. */
  datatype Data =
    | PressureData(pressure: real, depth: real, temperature: real)
    | OrientationData(accuracy: seq<Byte>, acceleration: Axes, euler: Axes, celsius: int)

  /** Publish: a raw sample is complete, and `data`, which the filters make of it and of earlier ones, is offered. */
  datatype Event =
    | Access(op: Op, answer: Answer)
    | Publish(sample: Sample, data: Data)

  /** The answer of an access; publishing has none. */
  function AnswerOf(e: Event): Answer {
    if e.Access? then e.answer else Answer(false, [])
  }

  predicate IsAccess(e: Event, op: Op) {
    e.Access? && e.op == op
  }

  predicate Acknowledged(e: Event, op: Op) {
    e.Access? && e.op == op && e.answer.ok
  }

  /** Some access was not acknowledged. */
  ghost predicate Refused(events: seq<Event>) {
    exists j :: 0 <= j < |events| && events[j].Access? && !events[j].answer.ok
  }

  datatype Yield = Nothing | Yields(active: bool)

  /** A resume runs from one co_await to the next: the delay it asks for, the flag it last yielded, the accesses
      it made and what it published. */
  datatype Resumed<S> = Resumed(sensor: S, delay: nat, yielded: Yield, events: seq<Event>)

  function SleepForUs(us: nat): nat {
    us * 1000
  }

  function SleepForMs(ms: nat): nat {
    ms * 1000 * 1000
  }

  /** A delay that arms a timer: neither zero, which disarms it, nor a whole second, which is rejected. */
  predicate Arms(delay: nat) {
    0 < delay < 1000000000
  }
}
