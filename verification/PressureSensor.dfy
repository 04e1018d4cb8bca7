/** The MS5837 sensor object: its two coroutines update the fields that the machine of `Ms5837` describes. */
module PressureSensor {
  import opened Bus
  import opened Crc4
  import opened Ms5837
  import opened PromCheck
  import V = PressureValues

  lemma FirstMissingIs(bus: Answers, i: nat, n: nat)
    requires i <= n <= 7
    requires forall j :: i <= j < n ==> !Missing(bus(2 * j + 1))
    requires n < 7 ==> Missing(bus(2 * n + 1))
    ensures FirstMissing(bus, i) == n
  {
  }

  lemma PromEventsPair(bus: Answers, i: nat)
    ensures PromEvents(bus, 2 * i + 2)
         == PromEvents(bus, 2 * i) + [Access(WriteByte(PROM_READ + i * 2), bus(2 * i)), Access(Read(2), bus(2 * i + 1))]
  {
  }

  lemma NextWord(calibration: seq<bv16>, bus: Answers, i: nat)
    requires |calibration| == 8 && i < 7
    ensures WithWords(calibration, bus, i)[i := Word(bus(2 * i + 1))] == WithWords(calibration, bus, i + 1)
  {
    hide Word;
  }

  lemma NoWords(calibration: seq<bv16>, bus: Answers)
    requires |calibration| == 8
    ensures calibration == WithWords(calibration, bus, 0) && PromEvents(bus, 0) == []
  {
  }

  class MS5837_I2C {
    var init: InitPoint
    var read: ReadPoint
    const calibration: array<bv16>
    var d1: nat
    const filters: V.Filters
    var data: Data
    const overflowing: V.Overflowing

    ghost var taken: seq<Sample>

    function Footprint(): set<object> {
      {this, calibration} + filters.Footprint()
    }

    /** The filters have been fed the samples taken so far, and the data offered is their last answer. */
    ghost predicate Valid()
      reads Footprint()
    {
      && this !in filters.Footprint() && calibration !in filters.Footprint()
      && calibration.Length == 8
      && filters.Fed(taken, overflowing)
      && data == V.Filtered(taken, overflowing)
    }

    ghost function View(): (s: State)
      reads Footprint()
      ensures Valid() ==> s.Shaped()
    {
      State(init, read, calibration[..], d1, taken, overflowing)
    }

    constructor (overflowing: V.Overflowing)
      ensures Valid() && fresh(Footprint())
      ensures View() == State(InitStart, ReadStart, seq(8, _ => 0), 0, [], overflowing)
    {
      hide V.Filters.Fed;
      init, read, d1 := InitStart, ReadStart, 0;
      calibration := new bv16[8](_ => 0);
      filters := new V.Filters();
      data := PressureData(0.0, 0.0, 0.0);
      this.overflowing := overflowing;
      taken := [];
      V.FilteredNothing(overflowing);
    }

    /** What readers of the sensor get: what was published last. */
    method GetData() returns (d: Data)
      requires Valid()
      ensures d == V.Filtered(View().taken, overflowing)
    {
      d := data;
    }

    /** The PROM loop: seven words, or up to the first that comes back as two zero bytes. */
    method ReadProm(bus: Answers) returns (complete: bool, ghost events: seq<Event>)
      requires calibration.Length == 8
      modifies calibration
      ensures var n := FirstMissing(bus, 0);
        && complete == (n == 7)
        && calibration[..] == WithWords(old(calibration[..]), bus, n)
        && events == PromEvents(bus, if n == 7 then 14 else 2 * n + 2)
    {
      ghost var before := calibration[..];
      events := [];
      var i := 0;
      NoWords(before, bus);
      hide WithWords, PromEvents, Missing, Word, FirstMissing;
      while i < 7
        invariant i <= 7
        invariant calibration[..] == WithWords(before, bus, i)
        invariant events == PromEvents(bus, 2 * i)
        invariant forall j :: 0 <= j < i ==> !Missing(bus(2 * j + 1))
      {
        var word := bus(2 * i + 1);
        PromEventsPair(bus, i);
        events := events + [Access(WriteByte(PROM_READ + i * 2), bus(2 * i)), Access(Read(2), word)];
        if Missing(word) {
          FirstMissingIs(bus, 0, i);
          return false, events;
        }
        NextWord(before, bus, i);
        calibration[i] := Word(word);
        i := i + 1;
      }
      FirstMissingIs(bus, 0, 7);
      return true, events;
    }

    /** The PROM words and their check. */
    method LoadCalibration(bus: Answers) returns (accepted: bool, ghost events: seq<Event>)
      requires calibration.Length == 8
      modifies calibration
      ensures var n := FirstMissing(bus, 0);
        var read := WithWords(old(calibration[..]), bus, n);
        && calibration[..] == (if n == 7 then Masked(read) else read)
        && accepted == (n == 7 && CrcMatches(read))
        && events == PromEvents(bus, if n == 7 then 14 else 2 * n + 2)
    {
      hide PromEvents, WithWords, CrcMatches, Masked, FirstMissing;
      var complete;
      complete, events := ReadProm(bus);
      accepted := false;
      if complete {
        accepted := CheckProm(calibration);
      }
    }

    method ResumeInit(bus: Answers) returns (delay: nat, yielded: Yield, ghost events: seq<Event>)
      requires Valid()
      modifies Footprint()
      ensures Valid()
      ensures Resumed(View(), delay, yielded, events) == old(Ms5837.ResumeInit(View(), bus))
    {
      hide V.Filters.Fed, V.Filtered, PromEvents, WithWords, CrcMatches, Masked, FirstMissing, Missing;
      delay, yielded, events := SleepForMs(10), Nothing, [];
      match init {
        case InitStart =>
          init := BeforeReset;
        case BeforeReset =>
          events := [Access(WriteByte(RESET), bus(0))];
          if bus(0).ok {
            init := BeforeProm;
          }
        case BeforeProm =>
          var accepted;
          accepted, events := LoadCalibration(bus);
          if accepted {
            yielded := Yields(true);
          }
          init := BeforeReset;
      }
    }

    method ResumeRead(bus: Answers) returns (delay: nat, yielded: Yield, ghost events: seq<Event>)
      requires Valid()
      modifies Footprint()
      ensures Valid()
      ensures Resumed(View(), delay, yielded, events) == old(Ms5837.ResumeRead(View(), bus))
    {
      hide Reading, V.Filters.Fed, V.Filters.Footprint, V.Filtered;
      delay, yielded, events := SleepForMs(10), Nothing, [];
      match read {
        case ReadStart =>
          read := BeforeD1;
        case BeforeD1 =>
          events := [Access(WriteByte(CONVERT_D1), bus(0))];
          if bus(0).ok {
            read, delay := BeforeReadD1, SleepForMs(20);
          } else {
            yielded := Yields(false);
          }
        case BeforeReadD1 =>
          read := BeforeD1;
          events := [Access(WriteByte(ADC_READ), bus(0))];
          if !bus(0).ok {
            yielded := Yields(false);
            return;
          }
          events := events + [Access(Read(3), bus(1))];
          if !bus(1).ok {
            yielded := Yields(false);
            return;
          }
          d1 := Reading(bus(1));
          events := events + [Access(WriteByte(CONVERT_D2), bus(2))];
          if !bus(2).ok {
            yielded := Yields(false);
            return;
          }
          read, delay := BeforeReadD2, SleepForMs(20);
        case BeforeReadD2 =>
          read := BeforeD1;
          events := [Access(WriteByte(ADC_READ), bus(0))];
          if !bus(0).ok {
            yielded := Yields(false);
            return;
          }
          events := events + [Access(Read(3), bus(1))];
          if !bus(1).ok {
            yielded := Yields(false);
            return;
          }
          var sample := PressureSample(d1, Reading(bus(1)), calibration[..]);
          data := filters.Apply(taken, sample, overflowing);
          taken := taken + [sample];
          events := events + [Publish(sample, data)];
      }
    }
  }
}
