/** The coroutines of the MS5837 pressure sensor. */
module Ms5837 {
  import opened Bus
  import opened Publications
  import opened Crc4
  import opened PromCheck
  import V = PressureValues

  const RESET: nat := 0x1E
  const ADC_READ: nat := 0x00
  const PROM_READ: nat := 0xA0
  const CONVERT_D1: nat := 0x4A
  const CONVERT_D2: nat := 0x5A

  /** Where Init is suspended. */
  datatype InitPoint = InitStart | BeforeReset | BeforeProm

  /** Where ReadData is suspended. */
  datatype ReadPoint = ReadStart | BeforeD1 | BeforeReadD1 | BeforeReadD2

  /** `taken` is what the filters have been fed so far. */
  datatype State = State(
    init: InitPoint, read: ReadPoint, calibration: seq<bv16>, d1: nat,
    taken: seq<Sample>, overflowing: V.Overflowing)
  {
    predicate Shaped() {
      |calibration| == 8
    }
  }

  function Word(a: Answer): bv16 {
    ((a.At(0) as bv16) << 8) | (a.At(1) as bv16)
  }

  predicate Missing(a: Answer) {
    a.At(0) == 0 && a.At(1) == 0
  }

  /** Three bytes, most significant first. */
  function Reading(a: Answer): nat {
    (a.At(0) as nat * 256 + a.At(1) as nat) * 256 + a.At(2) as nat
  }

  // ---------------------------------------------------------------- Init

  /** The k-th access of the PROM loop. */
  function PromOp(k: nat): Op {
    if k % 2 == 0 then WriteByte(PROM_READ + k) else Read(2)
  }

  /** The first word at or after i that came back as two zero bytes; 7 when there is none. */
  function FirstMissing(bus: Answers, i: nat): (n: nat)
    requires i <= 7
    ensures i <= n <= 7
    ensures n < 7 ==> Missing(bus(2 * n + 1))
    ensures forall j :: i <= j < n ==> !Missing(bus(2 * j + 1))
    decreases 7 - i
  {
    if i == 7 || Missing(bus(2 * i + 1)) then i else FirstMissing(bus, i + 1)
  }

  /** Calibration words 0..n-1 replaced by those read. */
  function WithWords(calibration: seq<bv16>, bus: Answers, n: nat): (c: seq<bv16>)
    requires |calibration| == 8 && n <= 7
    ensures |c| == 8
  {
    seq(8, i requires 0 <= i < 8 => if i < n then Word(bus(2 * i + 1)) else calibration[i])
  }

  function PromEvents(bus: Answers, count: nat): (events: seq<Event>)
    ensures |events| == count
  {
    seq(count, k requires 0 <= k < count => Access(PromOp(k), bus(k)))
  }

  ghost function ResumeInit(s: State, bus: Answers): (r: Resumed<State>)
    requires s.Shaped()
    ensures r.sensor.Shaped()
  {
    match s.init
    case InitStart =>
      Resumed(s.(init := BeforeReset), SleepForMs(10), Nothing, [])
    case BeforeReset =>
      var events := [Access(WriteByte(RESET), bus(0))];
      Resumed(s.(init := if bus(0).ok then BeforeProm else BeforeReset), SleepForMs(10), Nothing, events)
    case BeforeProm =>
      var n := FirstMissing(bus, 0);
      var read := WithWords(s.calibration, bus, n);
      if n < 7 then
        Resumed(s.(init := BeforeReset, calibration := read), SleepForMs(10), Nothing, PromEvents(bus, 2 * n + 2))
      else
        Resumed(s.(init := BeforeReset, calibration := Masked(read)), SleepForMs(10),
                if CrcMatches(read) then Yields(true) else Nothing, PromEvents(bus, 14))
  }

  // ---------------------------------------------------------------- ReadData

  /** Leaving the sampling loop: the flag is cleared and the next pass waits at the first co_await. */
  function Broken(s: State, events: seq<Event>): Resumed<State> {
    Resumed(s.(read := BeforeD1), SleepForMs(10), Yields(false), events)
  }

  function ResumeRead(s: State, bus: Answers): (r: Resumed<State>)
    ensures s.Shaped() ==> r.sensor.Shaped()
  {
    match s.read
    case ReadStart =>
      Resumed(s.(read := BeforeD1), SleepForMs(10), Nothing, [])
    case BeforeD1 =>
      var e0 := Access(WriteByte(CONVERT_D1), bus(0));
      if !bus(0).ok then Broken(s, [e0])
      else Resumed(s.(read := BeforeReadD1), SleepForMs(20), Nothing, [e0])
    case BeforeReadD1 =>
      var e0, e1 := Access(WriteByte(ADC_READ), bus(0)), Access(Read(3), bus(1));
      var e2 := Access(WriteByte(CONVERT_D2), bus(2));
      if !bus(0).ok then Broken(s, [e0])
      else if !bus(1).ok then Broken(s, [e0, e1])
      else if !bus(2).ok then Broken(s.(d1 := Reading(bus(1))), [e0, e1, e2])
      else Resumed(s.(read := BeforeReadD2, d1 := Reading(bus(1))), SleepForMs(20), Nothing, [e0, e1, e2])
    case BeforeReadD2 =>
      var e0, e1 := Access(WriteByte(ADC_READ), bus(0)), Access(Read(3), bus(1));
      if !bus(0).ok then Broken(s, [e0])
      else if !bus(1).ok then Broken(s, [e0, e1])
      else
        var sample := PressureSample(s.d1, Reading(bus(1)), s.calibration);
        var taken := s.taken + [sample];
        Resumed(s.(read := BeforeD1, taken := taken), SleepForMs(10), Nothing,
                [e0, e1, Publish(sample, V.Filtered(taken, s.overflowing))])
  }

  lemma ResumesArm(s: State, bus: Answers)
    requires s.Shaped()
    ensures Arms(ResumeInit(s, bus).delay) && |ResumeInit(s, bus).events| <= 14
    ensures Arms(ResumeRead(s, bus).delay) && |ResumeRead(s, bus).events| <= 3
  {
    hide WithWords, Masked, CrcMatches, PromEvents, Missing, Reading, V.Filtered;
  }

  /** Init promotes the sensor if and only if none of the seven words came back as two zero bytes and their check nibble
      matches; a reset that is not acknowledged is repeated. */
  lemma InitAcceptsExactly(s: State, bus: Answers)
    requires s.Shaped()
    ensures ResumeInit(s, bus).yielded == Yields(true) <==>
      && s.init.BeforeProm?
      && (forall n :: 0 <= n < 7 ==> bus(2 * n + 1).At(0) != 0 || bus(2 * n + 1).At(1) != 0)
      && CrcMatches(WithWords(s.calibration, bus, 7))
    ensures ResumeInit(s, bus).sensor.init.BeforeProm? <==> s.init.BeforeReset? && bus(0).ok
  {
    hide CrcMatches, Masked, WithWords, PromEvents;
    var n := FirstMissing(bus, 0);
    assert forall j :: 0 <= j < n ==> !Missing(bus(2 * j + 1));
  }

  /** A pass of ReadData breaks off if and only if an access was not acknowledged, and publishes if and only if the
      last of them all was. */
  lemma ReadBreaksExactly(s: State, bus: Answers)
    ensures var r := ResumeRead(s, bus);
      && (r.yielded == Yields(false) <==> Refused(r.events))
      && (Publishes(r.events) <==> s.read.BeforeReadD2? && bus(0).ok && bus(1).ok)
      && (r.yielded == Nothing ==>
           r.sensor.read == match s.read
             case ReadStart => BeforeD1
             case BeforeD1 => BeforeReadD1
             case BeforeReadD1 => BeforeReadD2
             case BeforeReadD2 => BeforeD1)
  {
    hide Reading, V.Filtered;
    var r := ResumeRead(s, bus);
    assert r.yielded == Yields(false) ==>
      r.events[|r.events| - 1].Access? && !r.events[|r.events| - 1].answer.ok;
  }

  // ---------------------------------------------------------------- the traces they leave

  /** An access that Init does not make. */
  predicate SamplingOp(op: Op) {
    || (op.WriteByte? && (op.value == CONVERT_D1 || op.value == CONVERT_D2 || op.value == ADC_READ))
    || op == Read(3)
  }

  /** A step of undisturbed sampling. */
  predicate Sampling(e: Event) {
    e.Publish? || (SamplingOp(e.op) && e.answer.ok)
  }

  predicate FailedSampling(e: Event) {
    e.Access? && SamplingOp(e.op) && !e.answer.ok
  }

  /** trace[i..i+15] is a complete initialisation: acknowledged reset, seven non-zero words read in order,
      matching check nibble; `calibration` is those words with the nibble cleared. */
  ghost predicate InitPassAt(trace: seq<Event>, i: nat, calibration: seq<bv16>) {
    && i + 15 <= |trace|
    && Acknowledged(trace[i], WriteByte(RESET))
    && (forall k :: 0 <= k < 14 ==> IsAccess(trace[i + 1 + k], PromOp(k)))
    && (forall n :: 0 <= n < 7 ==> !Missing(AnswerOf(trace[i + 2 + 2 * n])))
    && var words := WordsAt(trace, i);
       CrcMatches(words) && calibration == Masked(words)
  }

  /** The seven words read after position i; word 7 is not read. */
  ghost function WordsAt(trace: seq<Event>, i: nat): (w: seq<bv16>)
    requires i + 15 <= |trace|
    ensures |w| == 8
  {
    seq(8, n requires 0 <= n < 8 => if n < 7 then Word(AnswerOf(trace[i + 2 + 2 * n])) else 0)
  }

  /** The six acknowledged accesses that end at position k, giving the two readings. */
  predicate SamplePassBefore(trace: seq<Event>, k: nat, d1: nat, d2: nat)
    requires k <= |trace|
  {
    && FirstHalfBefore(trace, k - 2, d1)
    && k >= 6
    && Acknowledged(trace[k - 2], WriteByte(ADC_READ)) && Acknowledged(trace[k - 1], Read(3))
    && d2 == Reading(AnswerOf(trace[k - 1]))
  }

  predicate FirstHalfBefore(trace: seq<Event>, k: int, d1: nat)
    requires k <= |trace|
  {
    && k >= 4
    && Acknowledged(trace[k - 4], WriteByte(CONVERT_D1))
    && Acknowledged(trace[k - 3], WriteByte(ADC_READ)) && Acknowledged(trace[k - 2], Read(3))
    && Acknowledged(trace[k - 1], WriteByte(CONVERT_D2))
    && d1 == Reading(AnswerOf(trace[k - 2]))
  }

  /** Sampling undisturbed since a complete initialisation that started at i. */
  ghost predicate CalibratedSince(trace: seq<Event>, i: nat, end: nat, calibration: seq<bv16>)
    requires end <= |trace|
  {
    && i + 15 <= end
    && InitPassAt(trace, i, calibration)
    && forall m :: i + 15 <= m < end ==> Sampling(trace[m])
  }

  /** The raw sample taken at k comes from one undivided pass over the bus, and the calibration words with it passed
      the check after the last failure of any sampling access. */
  ghost predicate Justified(trace: seq<Event>, k: nat)
    requires k < |trace| && trace[k].Publish?
  {
    && trace[k].sample.PressureSample?
    && SamplePassBefore(trace, k, trace[k].sample.d1, trace[k].sample.d2)
    && exists i: nat :: CalibratedSince(trace, i, k, trace[k].sample.calibration)
  }

  /** The bytes read are the digits of a reading to the base 256, the most significant first. */
  lemma DigitsRead(a: Answer)
    ensures Reading(a) < 0x100_0000
    ensures a.At(0) as int == Reading(a) / 65536 && a.At(1) as int == Reading(a) / 256 % 256
    ensures a.At(2) as int == Reading(a) % 256
  {
    ThreeDigits(a.At(0) as nat, a.At(1) as nat, a.At(2) as nat);
  }

  lemma ThreeDigits(x: nat, y: nat, z: nat)
    requires x < 256 && y < 256 && z < 256
    ensures var n := (x * 256 + y) * 256 + z; x == n / 65536 && y == n / 256 % 256 && z == n % 256
  {
  }

  /** Behind a sample, in the command bytes of the device: conversion of D1, its three bytes, conversion of D2, its
      three bytes, all acknowledged, and the two readings digit by digit. */
  lemma JustifiedAccesses(trace: seq<Event>, k: nat)
    requires k < |trace| && trace[k].Publish? && Justified(trace, k)
    ensures k >= 6 && trace[k].sample.PressureSample?
    ensures Acknowledged(trace[k - 6], WriteByte(0x4A)) && Acknowledged(trace[k - 5], WriteByte(0x00))
    ensures Acknowledged(trace[k - 4], Read(3)) && Acknowledged(trace[k - 3], WriteByte(0x5A))
    ensures Acknowledged(trace[k - 2], WriteByte(0x00)) && Acknowledged(trace[k - 1], Read(3))
    ensures var s, d1, d2 := trace[k].sample, trace[k - 4].answer, trace[k - 1].answer;
      && s.d1 < 0x100_0000 && s.d2 < 0x100_0000
      && d1.At(0) as int == s.d1 / 65536 && d1.At(1) as int == s.d1 / 256 % 256 && d1.At(2) as int == s.d1 % 256
      && d2.At(0) as int == s.d2 / 65536 && d2.At(1) as int == s.d2 / 256 % 256 && d2.At(2) as int == s.d2 % 256
  {
    hide CalibratedSince, Reading, Word;
    DigitsRead(AnswerOf(trace[k - 4]));
    DigitsRead(AnswerOf(trace[k - 1]));
  }

  /** A complete initialisation in the command bytes of the device: reset, then seven times the address of a word and
      two bytes. The words read are not zero, and the calibration is those words without the check nibble. */
  lemma CalibrationAccesses(trace: seq<Event>, i: nat, calibration: seq<bv16>, n: nat)
    requires InitPassAt(trace, i, calibration) && n < 7
    ensures Acknowledged(trace[i], WriteByte(0x1E))
    ensures IsAccess(trace[i + 1 + 2 * n], WriteByte(0xA0 + 2 * n)) && IsAccess(trace[i + 2 + 2 * n], Read(2))
    ensures |calibration| == 8
    ensures var a := trace[i + 2 + 2 * n].answer;
      (a.At(0) != 0 || a.At(1) != 0) && calibration[n] == KeptWord(a.At(0), a.At(1), n == 0)
  {
    hide CrcMatches, PromOp, Missing, Word, Masked, KeptWord;
    var words := WordsAt(trace, i);
    var a := AnswerOf(trace[i + 2 + 2 * n]);
    PromOps(n);
    assert IsAccess(trace[i + 1 + 2 * n], PromOp(2 * n));
    assert IsAccess(trace[i + 1 + (2 * n + 1)], PromOp(2 * n + 1));
    MaskedWord(words, n, a);
  }

  /** Two bytes as a word, the first one on top; word 0 is kept without its upper four bits. */
  function KeptWord(high: Byte, low: Byte, first: bool): bv16 {
    ((if first then high % 16 else high) as bv16) * 256 + (low as bv16)
  }

  lemma PromOps(n: nat)
    ensures PromOp(2 * n) == WriteByte(0xA0 + 2 * n) && PromOp(2 * n + 1) == Read(2)
  {
  }

  lemma MaskedWord(words: seq<bv16>, n: nat, a: Answer)
    requires |words| == 8 && n < 7 && words[n] == Word(a) && !Missing(a)
    ensures |Masked(words)| == 8 && Masked(words)[n] == KeptWord(a.At(0), a.At(1), n == 0)
    ensures a.At(0) != 0 || a.At(1) != 0
  {
    hide KeptWord, Word, ClearTop, Answer.At;
    WordIs(a);
  }

  lemma WordIs(a: Answer)
    ensures Word(a) == KeptWord(a.At(0), a.At(1), false) && ClearTop(Word(a)) == KeptWord(a.At(0), a.At(1), true)
  {
    hide Answer.At;
  }

  ghost predicate AllJustified(trace: seq<Event>) {
    forall k :: 0 <= k < |trace| && trace[k].Publish? ==> Justified(trace, k)
  }

  /** What the position of Init says about the trace. */
  ghost predicate InitTrace(s: State, trace: seq<Event>) {
    s.init.BeforeProm? ==> |trace| > 0 && Acknowledged(trace[|trace| - 1], WriteByte(RESET))
  }

  /** What the position of ReadData says about the trace while the sensor is online. */
  ghost predicate ReadTrace(s: State, trace: seq<Event>) {
    && (s.read.BeforeReadD1? ==> |trace| > 0 && Acknowledged(trace[|trace| - 1], WriteByte(CONVERT_D1)))
    && (s.read.BeforeReadD2? ==> FirstHalfBefore(trace, |trace|, s.d1))
    && exists i: nat :: CalibratedSince(trace, i, |trace|, s.calibration)
  }

  // ---------------------------------------------------------------- one resume preserves them

  lemma CalibratedExtends(trace: seq<Event>, events: seq<Event>, i: nat, end: nat, calibration: seq<bv16>)
    requires end <= |trace| && CalibratedSince(trace, i, end, calibration)
    ensures CalibratedSince(trace + events, i, end, calibration)
  {
    hide CrcMatches, Masked, Word, Missing, PromOp, Sampling;
    var trace' := trace + events;
    forall k | 0 <= k < 14
      ensures IsAccess(trace'[i + 1 + k], PromOp(k))
    {
      assert IsAccess(trace[i + 1 + k], PromOp(k));
    }
    forall n | 0 <= n < 7
      ensures AnswerOf(trace'[i + 2 + 2 * n]) == AnswerOf(trace[i + 2 + 2 * n])
    {
    }
    assert WordsAt(trace', i) == WordsAt(trace, i);
    assert InitPassAt(trace', i, calibration);
  }

  lemma SamplePassExtends(trace: seq<Event>, events: seq<Event>, k: nat, d1: nat, d2: nat)
    requires k <= |trace| && SamplePassBefore(trace, k, d1, d2)
    ensures SamplePassBefore(trace + events, k, d1, d2)
  {
    hide Reading;
  }

  lemma JustifiedExtends(trace: seq<Event>, events: seq<Event>, k: nat)
    requires k < |trace| && trace[k].Publish? && Justified(trace, k)
    ensures Justified(trace + events, k)
  {
    var i: nat :| CalibratedSince(trace, i, k, trace[k].sample.calibration);
    SamplePassExtends(trace, events, k, trace[k].sample.d1, trace[k].sample.d2);
    hide CalibratedSince, Reading, SamplePassBefore;
    CalibratedExtends(trace, events, i, k, trace[k].sample.calibration);
  }

  lemma AllJustifiedExtends(trace: seq<Event>, events: seq<Event>)
    requires AllJustified(trace) && forall j :: 0 <= j < |events| ==> events[j].Access?
    ensures AllJustified(trace + events)
  {
    hide Justified;
    forall k | 0 <= k < |trace + events| && (trace + events)[k].Publish?
      ensures Justified(trace + events, k)
    {
      if k < |trace| {
        JustifiedExtends(trace, events, k);
      }
    }
  }

  /** Masking forgets word 7, which the PROM loop does not read. */
  lemma UnreadWord(read: seq<bv16>, words: seq<bv16>)
    requires |read| == |words| == 8 && read[..7] == words[..7]
    ensures CrcMatches(read) == CrcMatches(words) && Masked(read) == Masked(words)
  {
    hide ClearTop, IsRemainder, Image, Poly;
    forall j | 0 <= j < 7
      ensures read[j] == words[j]
    {
      assert read[j] == read[..7][j] == words[..7][j];
    }
    assert Masked(read) == Masked(words);
    hide Masked;
  }

  lemma InitPreserves(s: State, trace: seq<Event>, bus: Answers)
    requires s.Shaped() && AllJustified(trace) && InitTrace(s, trace)
    ensures var r := ResumeInit(s, bus);
      && AllJustified(trace + r.events)
      && InitTrace(r.sensor, trace + r.events)
      && r.sensor.read == s.read && r.sensor.d1 == s.d1
      && r.sensor.init != InitStart
      && (r.yielded == Nothing || r.yielded == Yields(true))
      && (r.yielded == Yields(true) ==>
           && r.sensor.init == BeforeReset
           && exists i: nat :: CalibratedSince(trace + r.events, i, |trace + r.events|, r.sensor.calibration))
  {
    var r := ResumeInit(s, bus);
    var trace' := trace + r.events;
    assert forall j :: 0 <= j < |r.events| ==> r.events[j].Access?;
    AllJustifiedExtends(trace, r.events);
    hide AllJustified;
    if r.yielded == Yields(true) {
      InitCompletes(s, trace, bus);
    }
  }

  /** The fourteen accesses of a complete PROM loop, seen from the reset before them. */
  lemma PromLoopTrace(trace: seq<Event>, bus: Answers, calibration: seq<bv16>)
    requires |trace| > 0 && |calibration| == 8
    ensures var trace' := trace + PromEvents(bus, 14);
      var i := |trace| - 1;
      && (forall k :: 0 <= k < 14 ==> IsAccess(trace'[i + 1 + k], PromOp(k)))
      && (forall n :: 0 <= n < 7 ==> AnswerOf(trace'[i + 2 + 2 * n]) == bus(2 * n + 1))
      && WordsAt(trace', i)[..7] == WithWords(calibration, bus, 7)[..7]
  {
    hide PromOp, Word;
    var trace' := trace + PromEvents(bus, 14);
    var i := |trace| - 1;
    forall k | 0 <= k < 14
      ensures trace'[i + 1 + k] == Access(PromOp(k), bus(k))
    {
    }
    forall n | 0 <= n < 7
      ensures AnswerOf(trace'[i + 2 + 2 * n]) == bus(2 * n + 1)
    {
      assert trace'[i + 1 + (2 * n + 1)] == Access(PromOp(2 * n + 1), bus(2 * n + 1));
    }
  }

  lemma InitYields(s: State, bus: Answers)
    requires s.Shaped() && ResumeInit(s, bus).yielded == Yields(true)
    ensures var r := ResumeInit(s, bus);
      && s.init == BeforeProm && r.events == PromEvents(bus, 14)
      && (forall n :: 0 <= n < 7 ==> !Missing(bus(2 * n + 1)))
      && CrcMatches(WithWords(s.calibration, bus, 7))
      && r.sensor.calibration == Masked(WithWords(s.calibration, bus, 7))
  {
    hide CrcMatches, Masked, WithWords, Missing;
    assert FirstMissing(bus, 0) == 7;
  }

  lemma PromLoopWords(trace: seq<Event>, bus: Answers, calibration: seq<bv16>)
    requires |trace| > 0 && |calibration| == 8
    ensures var words := WordsAt(trace + PromEvents(bus, 14), |trace| - 1);
      && CrcMatches(words) == CrcMatches(WithWords(calibration, bus, 7))
      && Masked(words) == Masked(WithWords(calibration, bus, 7))
  {
    hide *;
    PromLoopTrace(trace, bus, calibration);
    UnreadWord(WithWords(calibration, bus, 7), WordsAt(trace + PromEvents(bus, 14), |trace| - 1));
  }

  /** Fourteen accesses without a missing word and with a matching nibble complete the initialisation. */
  lemma PromLoopCompletes(trace: seq<Event>, bus: Answers, calibration: seq<bv16>)
    requires |trace| > 0 && |calibration| == 8
    requires Acknowledged(trace[|trace| - 1], WriteByte(RESET))
    requires forall n :: 0 <= n < 7 ==> !Missing(bus(2 * n + 1))
    requires CrcMatches(WithWords(calibration, bus, 7))
    ensures InitPassAt(trace + PromEvents(bus, 14), |trace| - 1, Masked(WithWords(calibration, bus, 7)))
  {
    hide CrcMatches, Masked, Word, Missing, PromOp, WithWords, PromEvents, WordsAt, AnswerOf, IsAccess, Acknowledged;
    var trace' := trace + PromEvents(bus, 14);
    var i := |trace| - 1;
    PromLoopTrace(trace, bus, calibration);
    PromLoopWords(trace, bus, calibration);
    assert trace'[i] == trace[i];
    forall n | 0 <= n < 7
      ensures !Missing(AnswerOf(trace'[i + 2 + 2 * n]))
    {
      assert AnswerOf(trace'[i + 2 + 2 * n]) == bus(2 * n + 1);
    }
  }

  lemma InitCompletes(s: State, trace: seq<Event>, bus: Answers)
    requires s.Shaped() && InitTrace(s, trace) && ResumeInit(s, bus).yielded == Yields(true)
    ensures var r := ResumeInit(s, bus);
      CalibratedSince(trace + r.events, |trace| - 1, |trace + r.events|, r.sensor.calibration)
  {
    InitYields(s, bus);
    hide CrcMatches, Masked, Missing, ResumeInit, WithWords, PromEvents, InitPassAt;
    PromLoopCompletes(trace, bus, s.calibration);
  }

  lemma ReadPreserves(s: State, trace: seq<Event>, bus: Answers)
    requires AllJustified(trace) && ReadTrace(s, trace) && s.read != ReadStart
    ensures var r := ResumeRead(s, bus);
      && AllJustified(trace + r.events)
      && r.sensor.init == s.init && r.sensor.calibration == s.calibration
      && (r.yielded == Nothing || r.yielded == Yields(false))
      && (r.yielded == Nothing ==> ReadTrace(r.sensor, trace + r.events) && r.sensor.read != ReadStart)
      && (r.yielded == Yields(false) ==> r.sensor.read == BeforeD1)
  {
    var r := ResumeRead(s, bus);
    var i: nat :| CalibratedSince(trace, i, |trace|, s.calibration);
    ReadShape(s, bus);
    hide V.Filtered;
    if r.yielded == Nothing && s.read.BeforeReadD2? {
      PublishAdvances(s, trace, bus, i);
    } else {
      hide *;
      AllJustifiedExtends(trace, r.events);
      if r.yielded == Nothing {
        ReadAdvances(s, trace, bus, i);
      }
    }
  }

  lemma ReadShape(s: State, bus: Answers)
    requires s.read != ReadStart
    ensures var r := ResumeRead(s, bus);
      && r.sensor.init == s.init && r.sensor.calibration == s.calibration && r.sensor.read != ReadStart
      && (r.yielded == Nothing || r.yielded == Yields(false))
      && (r.yielded == Yields(false) ==> r.sensor.read == BeforeD1)
      && (r.yielded == Yields(false) || s.read != BeforeReadD2 ==>
           forall j :: 0 <= j < |r.events| ==> r.events[j].Access?)
      && (r.yielded == Nothing && s.read == BeforeReadD2 ==> bus(0).ok && bus(1).ok)
  {
    hide V.Filtered;
  }

  /** A resume that takes a sample publishes it last; any other only makes accesses. */
  lemma ReadRecords(s: State, bus: Answers)
    ensures var r := ResumeRead(s, bus);
      && r.sensor.overflowing == s.overflowing
      && PublishesLast(r.events)
      && if Publishes(r.events) then
           var e := r.events[|r.events| - 1];
           r.sensor.taken == s.taken + [e.sample] && e.data == V.Filtered(r.sensor.taken, s.overflowing)
         else r.sensor.taken == s.taken
  {
    hide V.Filtered, Reading;
  }

  /** The filters have been fed the samples of the trace, and each publication is what they made of those up to and
      including its own. */
  ghost predicate Recorded(s: State, trace: seq<Event>) {
    s.taken == SamplesOf(trace) && Made(trace, V.Maker(s.overflowing))
  }

  lemma InitRecorded(s: State, trace: seq<Event>, bus: Answers)
    requires s.Shaped() && Recorded(s, trace)
    ensures var r := ResumeInit(s, bus); Recorded(r.sensor, trace + r.events)
  {
    var r := ResumeInit(s, bus);
    assert r.sensor.taken == s.taken && r.sensor.overflowing == s.overflowing;
    assert forall j :: 0 <= j < |r.events| ==> r.events[j].Access?;
    hide ResumeInit, V.Maker, Made, SamplesOf;
    AccessesRecorded(trace, r.events, V.Maker(s.overflowing));
  }

  lemma ReadRecorded(s: State, trace: seq<Event>, bus: Answers)
    requires Recorded(s, trace)
    ensures var r := ResumeRead(s, bus); Recorded(r.sensor, trace + r.events)
  {
    var r := ResumeRead(s, bus);
    ReadRecords(s, bus);
    hide ResumeRead, V.Filtered, Made, SamplesOf;
    ResumeRecorded(trace, r.events, V.Maker(s.overflowing));
  }


  lemma PublishAdvances(s: State, trace: seq<Event>, bus: Answers, i: nat)
    requires AllJustified(trace) && ReadTrace(s, trace) && s.read.BeforeReadD2?
    requires ResumeRead(s, bus).yielded == Nothing && CalibratedSince(trace, i, |trace|, s.calibration)
    ensures var r := ResumeRead(s, bus);
      AllJustified(trace + r.events) && ReadTrace(r.sensor, trace + r.events)
  {
    hide CalibratedSince, Justified, Reading, FirstHalfBefore, V.Filtered;
    PublishJustified(s, trace, bus, i);
  }

  lemma ReadAdvances(s: State, trace: seq<Event>, bus: Answers, i: nat)
    requires ReadTrace(s, trace) && (s.read.BeforeD1? || s.read.BeforeReadD1?)
    requires ResumeRead(s, bus).yielded == Nothing && CalibratedSince(trace, i, |trace|, s.calibration)
    ensures var r := ResumeRead(s, bus);
      ReadTrace(r.sensor, trace + r.events)
  {
    hide Reading, CalibratedSince, V.Filtered;
    var r := ResumeRead(s, bus);
    var trace' := trace + r.events;
    SamplingExtends(trace, r.events, i, s.calibration);
    if s.read.BeforeReadD1? {
      var n := |trace|;
      assert trace'[n - 1] == trace[n - 1];
      assert trace'[n] == r.events[0] && trace'[n + 1] == r.events[1] && trace'[n + 2] == r.events[2];
    }
  }

  lemma SamplingExtends(trace: seq<Event>, events: seq<Event>, i: nat, calibration: seq<bv16>)
    requires CalibratedSince(trace, i, |trace|, calibration) && forall j :: 0 <= j < |events| ==> Sampling(events[j])
    ensures CalibratedSince(trace + events, i, |trace + events|, calibration)
  {
    CalibratedExtends(trace, events, i, |trace|, calibration);
    hide InitPassAt, Sampling;
    var trace' := trace + events;
    forall m | i + 15 <= m < |trace'|
      ensures Sampling(trace'[m])
    {
    }
  }

  lemma PublishJustified(s: State, trace: seq<Event>, bus: Answers, i: nat)
    requires AllJustified(trace) && FirstHalfBefore(trace, |trace|, s.d1)
    requires s.read.BeforeReadD2? && bus(0).ok && bus(1).ok
    requires CalibratedSince(trace, i, |trace|, s.calibration)
    ensures var r := ResumeRead(s, bus);
      && AllJustified(trace + r.events)
      && CalibratedSince(trace + r.events, i, |trace + r.events|, s.calibration)
  {
    hide Reading, InitPassAt, V.Filtered;
    var r := ResumeRead(s, bus);
    var trace' := trace + r.events;
    var k := |trace'| - 1;
    SamplingExtends(trace, r.events, i, s.calibration);
    assert trace'[k].Publish? && trace'[k].sample == PressureSample(s.d1, Reading(bus(1)), s.calibration);
    assert SamplePassBefore(trace', k, s.d1, Reading(bus(1)));
    assert CalibratedSince(trace', i, k, s.calibration);
    assert Justified(trace', k);
    hide Justified;
    forall j | 0 <= j < |trace'| && trace'[j].Publish?
      ensures Justified(trace', j)
    {
      if j < |trace| {
        JustifiedExtends(trace, r.events, j);
      }
    }
  }

  lemma InitPassOps(trace: seq<Event>, i: nat, calibration: seq<bv16>, m: nat)
    requires InitPassAt(trace, i, calibration) && i <= m < i + 15
    ensures trace[m].Access? && !SamplingOp(trace[m].op)
  {
    if m > i {
      var k := m - i - 1;
      assert IsAccess(trace[i + 1 + k], PromOp(k));
    }
  }

  /** A failed sampling access lies before the whole initialisation that a later sample relies on. */
  lemma FailureForcesInit(trace: seq<Event>, m: nat, i: nat, end: nat, calibration: seq<bv16>)
    requires m < end <= |trace| && FailedSampling(trace[m]) && CalibratedSince(trace, i, end, calibration)
    ensures m < i
  {
    hide InitPassAt;
    if i <= m < i + 15 {
      InitPassOps(trace, i, calibration, m);
    }
  }

  /** A reset is acknowledged at the start of an initialisation and nowhere else in it or after it. */
  lemma NoOtherReset(trace: seq<Event>, i: nat, end: nat, calibration: seq<bv16>, m: nat)
    requires end <= |trace| && CalibratedSince(trace, i, end, calibration) && i < m < end
    ensures !Acknowledged(trace[m], WriteByte(RESET))
  {
    if m < i + 15 {
      var k := m - i - 1;
      assert IsAccess(trace[i + 1 + k], PromOp(k));
    } else {
      assert Sampling(trace[m]);
    }
  }

  /** Two samples taken since one initialisation rely on that same one, and carry the same words. */
  lemma SameInitialisation(trace: seq<Event>, i: nat, k: nat, c: seq<bv16>, i': nat, m: nat, c': seq<bv16>)
    requires m <= k <= |trace| && i + 15 <= m
    requires CalibratedSince(trace, i, k, c) && CalibratedSince(trace, i', m, c')
    ensures i == i' && c == c'
  {
    if i < i' {
      NoOtherReset(trace, i, k, c, i');
      assert false;
    } else if i' < i {
      NoOtherReset(trace, i', m, c', i);
      assert false;
    }
  }

  /** Until the initialisation is complete, nothing is published. */
  lemma NothingPublishedInside(trace: seq<Event>, i: nat, calibration: seq<bv16>, m: nat)
    requires InitPassAt(trace, i, calibration) && i <= m < i + 15
    ensures trace[m].Access?
  {
    InitPassOps(trace, i, calibration, m);
  }

  lemma SameWordsSince(trace: seq<Event>, i: nat, k: nat, m: nat)
    requires AllJustified(trace) && i <= m <= k < |trace| && trace[k].Publish? && trace[m].Publish?
    requires trace[k].sample.PressureSample? && CalibratedSince(trace, i, k, trace[k].sample.calibration)
    ensures trace[m].sample.PressureSample? && trace[m].sample.calibration == trace[k].sample.calibration
  {
    hide InitPassAt, SamplePassBefore;
    assert Justified(trace, m);
    var i': nat :| CalibratedSince(trace, i', m, trace[m].sample.calibration);
    if m < i + 15 {
      NothingPublishedInside(trace, i, trace[k].sample.calibration, m);
    } else {
      hide CalibratedSince, Justified;
      SameInitialisation(trace, i, k, trace[k].sample.calibration, i', m, trace[m].sample.calibration);
    }
  }

  /** A raw sample is two 24-bit readings and eight words. */
  lemma JustifiedReadable(trace: seq<Event>, k: nat)
    requires k < |trace| && trace[k].Publish? && Justified(trace, k)
    ensures V.Readable(trace[k].sample)
  {
    hide Reading, Sampling, CrcMatches, Missing, Word;
    DigitsRead(AnswerOf(trace[k - 1]));
    DigitsRead(AnswerOf(trace[k - 4]));
  }
}
