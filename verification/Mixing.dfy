/** Samples from before a failure in what is published after it. */
module Mixing {
  import opened Bus
  import opened Publications
  import opened SensorMachine
  import opened Crc4
  import opened PromCheck
  import C = Compensation
  import Ms5837
  import P = PressureValues

  lemma {:induction false} NoSamples(events: seq<Event>)
    requires forall l :: 0 <= l < |events| ==> events[l].Access?
    ensures SamplesOf(events) == []
  {
    if events == [] {
    } else {
      NoSamples(events[..|events| - 1]);
    }
  }

  lemma OneSample(e: Event)
    requires e.Publish?
    ensures SamplesOf([e]) == [e.sample]
  {
    assert [e][..0] == [];
  }

  /** Two publications with nothing published between them. */
  lemma SamplesAround(trace: seq<Event>, j: nat, k: nat)
    requires j < k < |trace| && trace[j].Publish? && trace[k].Publish?
    requires forall l :: j < l < k ==> trace[l].Access?
    ensures SamplesOf(trace[..k + 1]) == SamplesOf(trace[..j]) + [trace[j].sample] + [trace[k].sample]
  {
    hide SamplesOf;
    var between := trace[j + 1..k];
    assert trace[..k + 1] == trace[..j] + [trace[j]] + between + [trace[k]];
    NoSamples(between);
    OneSample(trace[j]);
    OneSample(trace[k]);
    SamplesConcat(trace[..j] + [trace[j]] + between, [trace[k]]);
    SamplesConcat(trace[..j] + [trace[j]], between);
    SamplesConcat(trace[..j], [trace[j]]);
  }

  lemma SamplesFrom(trace: seq<Event>, m: nat, k: nat)
    requires m < k < |trace| && trace[k].Publish? && forall l :: m <= l < k ==> trace[l].Access?
    ensures SamplesOf(trace[m..k + 1]) == [trace[k].sample]
  {
    hide SamplesOf;
    assert trace[m..k + 1] == trace[m..k] + [trace[k]];
    NoSamples(trace[m..k]);
    OneSample(trace[k]);
    SamplesConcat(trace[m..k], [trace[k]]);
  }

  /** In every run: the first publication after a failed access is the mean of the compensated sample from before the
      failure and of the one from after it, although a whole initialisation lies between them; it is never what the
      samples taken since the failure would give. */
  lemma FirstAfterFailure(fd: nat, sensor: SensorState, steps: seq<Step>, j: nat, m: nat, k: nat)
    requires sensor.Shaped() && sensor.Unstarted() && sensor.Pressure?
    requires var trace := Run(Registered(fd, sensor), steps).trace;
      && j < m < k < |trace| && trace[j].Publish? && trace[k].Publish?
      && (forall l :: j < l < k ==> trace[l].Access?)
      && Ms5837.FailedSampling(trace[m])
      && P.Computable(trace[j].sample)
    ensures var trace, o := Run(Registered(fd, sensor), steps).trace, sensor.ms.overflowing;
      var before, after := P.Computed(trace[j].sample, o), P.Computed(trace[k].sample, o);
      && trace[k].sample.PressureSample?
      && (exists i: nat :: m < i && Ms5837.CalibratedSince(trace, i, k, trace[k].sample.calibration))
      && trace[k].data == PressureData((after.pressure + before.pressure) / 2.0,
                                       (after.depth + before.depth) / 2.0,
                                       (after.temperature + before.temperature) / 2.0)
      && trace[k].data != P.Filtered(SamplesOf(trace[m..k + 1]), o)
  {
    hide Run, Ms5837.CalibratedSince, Ms5837.FailedSampling, P.Computed, P.Computable, P.Filtered, SamplesOf;
    var trace, o := Run(Registered(fd, sensor), steps).trace, sensor.ms.overflowing;
    PublishedAnswer(fd, sensor, steps, k);
    PressureAfterFailure(fd, sensor, steps, m, k);
    SamplesAround(trace, j, k);
    SamplesFrom(trace, m, k);
    var earlier := SamplesOf(trace[..j]) + [trace[j].sample];
    P.FilteredIs(earlier + [trace[k].sample], o);
    P.FirstSinceExactly(earlier, trace[k].sample, o);
    P.CompensatedVisible(trace[j].sample, o);
  }

  lemma PublishedAnswer(fd: nat, sensor: SensorState, steps: seq<Step>, k: nat)
    requires sensor.Shaped() && sensor.Unstarted() && sensor.Pressure?
    requires var trace := Run(Registered(fd, sensor), steps).trace; k < |trace| && trace[k].Publish?
    ensures var trace := Run(Registered(fd, sensor), steps).trace;
      trace[k].data == P.Filtered(SamplesOf(trace[..k + 1]), sensor.ms.overflowing)
  {
    RunSafe(fd, sensor, steps);
    var c := Run(Registered(fd, sensor), steps);
    assert Ms5837.Recorded(c.sensor.ms, c.trace);
    hide Run, SamplesOf, P.Filtered;
  }

  // ---------------------------------------------------------------- such a run exists

  /** Everything is acknowledged, and every reading is 256. */
  const FINE: Answers := _ => Answer(true, [0, 1, 0])

  const BROKEN: Answers := _ => Answer(false, [])

  /** A PROM whose words are all 1, apart from the check nibble. */
  function PromWords(nibble: bv16): (words: seq<bv16>)
    ensures |words| == 8
  {
    [(nibble << 12) | 1, 1, 1, 1, 1, 1, 1, 0]
  }

  function HighHalf(word: bv16): Byte {
    (word >> 8) as Byte
  }

  function LowHalf(word: bv16): Byte {
    (word & 0xFF) as Byte
  }

  /** The answers that deliver them. */
  function PromAnswers(words: seq<bv16>): Answers
    requires |words| == 8
  {
    (k: nat) => Answer(true, if k % 2 == 1 && k < 16 then [HighHalf(words[k / 2]), LowHalf(words[k / 2])] else [])
  }

  lemma Delivered(words: seq<bv16>, n: nat)
    requires |words| == 8 && n < 7
    ensures Ms5837.Word(PromAnswers(words)(2 * n + 1)) == words[n]
    ensures words[n] != 0 ==> !Ms5837.Missing(PromAnswers(words)(2 * n + 1))
  {
    Halved(words[n]);
    hide HighHalf, LowHalf;
    assert (2 * n + 1) / 2 == n;
  }

  lemma Halved(word: bv16)
    ensures ((HighHalf(word) as bv16) << 8) | (LowHalf(word) as bv16) == word
    ensures word != 0 ==> HighHalf(word) != 0 || LowHalf(word) != 0
  {
  }

  lemma PromFacts(nibble: bv16)
    requires nibble < 0x10
    ensures forall n :: 0 <= n < 7 ==> PromWords(nibble)[n] != 0
    ensures TopNibbleOf(PromWords(nibble)[0]) == nibble
    ensures Masked(PromWords(nibble)) == Masked(PromWords(0)) == [1, 1, 1, 1, 1, 1, 1, 0]
  {
  }

  /** One of the sixteen nibbles matches. */
  lemma MatchingNibble() returns (nibble: bv16)
    ensures nibble < 0x10 && CrcMatches(PromWords(nibble))
  {
    var words := Masked(PromWords(0));
    PromFacts(0);
    hide Masked, PromWords, IsRemainder, Register, WordsBytes, Image, Poly;
    PromRemainder(words);
    var rem := Register(WordsBytes(words));
    nibble := rem >> 12;
    ShiftedSmall(rem);
    PromFacts(nibble);
  }

  lemma ShiftedSmall(rem: bv16)
    ensures rem >> 12 < 0x10
  {
  }

  /** Sampling, at the first co_await of a pass and with Init waiting at its own. */
  ghost predicate Between(c: Context, mode: Mode) {
    && c.sensor.Pressure? && c.sensor.Shaped() && c.mode == mode && c.readActive && !c.initActive
    && c.sensor.ms.init.BeforeReset? && c.sensor.ms.read.BeforeD1?
  }

  /** Nothing but accesses was added to the trace. */
  ghost predicate OnlyAccesses(trace: seq<Event>, trace': seq<Event>) {
    && |trace| <= |trace'| && trace'[..|trace|] == trace
    && forall l :: |trace| <= l < |trace'| ==> trace'[l].Access?
  }

  function Sampled(c: Context): Sample
    requires c.sensor.Pressure?
  {
    PressureSample(256, 256, c.sensor.ms.calibration)
  }

  lemma FineReading()
    ensures Ms5837.Reading(FINE(1)) == 256
  {
  }

  /** Three dispatches of undisturbed sampling publish once. */
  lemma SampleRound(c: Context) returns (d: Context)
    requires Between(c, Online)
    ensures d == Dispatch(Dispatch(Dispatch(c, FINE), FINE), FINE)
    ensures Between(d, Online) && d.sensor.ms.calibration == c.sensor.ms.calibration
    ensures var k := |d.trace| - 1;
      && |c.trace| < k && OnlyAccesses(c.trace, d.trace[..k])
      && d.trace[k].Publish? && d.trace[k].sample == Sampled(c)
  {
    hide P.Filtered, Ms5837.Reading;
    FineReading();
    var a := Dispatch(c, FINE);
    assert a.sensor.ms.read.BeforeReadD1? && |a.trace| == |c.trace| + 1 && OnlyAccesses(c.trace, a.trace);
    var b := Dispatch(a, FINE);
    assert b.sensor.ms.read.BeforeReadD2? && |b.trace| == |a.trace| + 3 && OnlyAccesses(a.trace, b.trace);
    d := Dispatch(b, FINE);
  }

  /** A reset and a PROM that passes the check. */
  lemma InitRound(c: Context, nibble: bv16) returns (d: Context)
    requires Between(c, Offline) && nibble < 0x10 && CrcMatches(PromWords(nibble))
    ensures d == Dispatch(Dispatch(c, FINE), PromAnswers(PromWords(nibble)))
    ensures Between(d, Online) && d.sensor.ms.calibration == [1, 1, 1, 1, 1, 1, 1, 0]
    ensures OnlyAccesses(c.trace, d.trace)
  {
    hide CrcMatches, Masked, Ms5837.WithWords, Ms5837.PromEvents, Ms5837.Missing, PromWords, PromAnswers;
    var bus := PromAnswers(PromWords(nibble));
    var a := Dispatch(c, FINE);
    assert a.sensor.ms.init.BeforeProm? && OnlyAccesses(c.trace, a.trace);
    PromDelivered(a.sensor.ms.calibration, nibble);
    assert Ms5837.FirstMissing(bus, 0) == 7;
    d := Dispatch(a, bus);
    PromAccesses(bus);
  }

  lemma PromAccesses(bus: Answers)
    ensures forall l :: 0 <= l < 14 ==> Ms5837.PromEvents(bus, 14)[l].Access?
  {
  }

  lemma PromDelivered(calibration: seq<bv16>, nibble: bv16)
    requires |calibration| == 8 && nibble < 0x10 && CrcMatches(PromWords(nibble))
    ensures var bus := PromAnswers(PromWords(nibble));
      && (forall n :: 0 <= n < 7 ==> !Ms5837.Missing(bus(2 * n + 1)))
      && CrcMatches(Ms5837.WithWords(calibration, bus, 7))
      && Masked(Ms5837.WithWords(calibration, bus, 7)) == [1, 1, 1, 1, 1, 1, 1, 0]
  {
    hide CrcMatches, Masked, Ms5837.Missing, Ms5837.Word, PromWords, PromAnswers;
    var words, bus := PromWords(nibble), PromAnswers(PromWords(nibble));
    PromFacts(nibble);
    var read := Ms5837.WithWords(calibration, bus, 7);
    forall n | 0 <= n < 7
      ensures !Ms5837.Missing(bus(2 * n + 1)) && read[n] == words[n]
    {
      Delivered(words, n);
    }
    assert read[..7] == words[..7];
    Ms5837.UnreadWord(read, words);
  }

  /** A failing access sends the sensor back to Init. */
  lemma FailRound(c: Context)
    requires Between(c, Online)
    ensures var d := Dispatch(c, BROKEN);
      && Between(d, Offline) && OnlyAccesses(c.trace, d.trace)
      && |d.trace| == |c.trace| + 1 && Ms5837.FailedSampling(d.trace[|c.trace|])
  {
    hide P.Filtered, Ms5837.Reading;
  }

  /** Registration, then the first two dispatches. */
  lemma StartRound(fd: nat, sensor: SensorState) returns (d: Context)
    requires sensor.Shaped() && sensor.Unstarted() && sensor.Pressure?
    ensures d == Dispatch(Dispatch(Registered(fd, sensor), FINE), FINE)
    ensures Between(d, Offline) && d.trace == []
  {
    hide P.Filtered, Ms5837.Reading;
    d := Dispatch(Dispatch(Registered(fd, sensor), FINE), FINE);
  }

  lemma RunServes(c: Context, steps: seq<Step>, bus: Answers)
    requires c.sensor.Shaped()
    ensures Run(c, steps + [Served(bus)]) == Dispatch(Run(c, steps), bus)
  {
    assert (steps + [Served(bus)])[..|steps|] == steps;
    hide Dispatch;
  }

  lemma RunServesTwo(c: Context, steps: seq<Step>, a: Answers, b: Answers)
    requires c.sensor.Shaped()
    ensures Run(c, steps + [Served(a), Served(b)]) == Dispatch(Dispatch(Run(c, steps), a), b)
  {
    hide Run, Dispatch;
    RunServes(c, steps, a);
    RunServes(c, steps + [Served(a)], b);
    assert steps + [Served(a), Served(b)] == steps + [Served(a)] + [Served(b)];
  }

  lemma RunServesThree(c: Context, steps: seq<Step>, a: Answers, b: Answers, d: Answers)
    requires c.sensor.Shaped()
    ensures Run(c, steps + [Served(a), Served(b), Served(d)]) == Dispatch(Dispatch(Dispatch(Run(c, steps), a), b), d)
  {
    hide Run, Dispatch;
    RunServesTwo(c, steps, a, b);
    RunServes(c, steps + [Served(a), Served(b)], d);
    assert steps + [Served(a), Served(b), Served(d)] == steps + [Served(a), Served(b)] + [Served(d)];
  }

  lemma SampledComputable(c: Context)
    requires c.sensor.Pressure? && c.sensor.ms.calibration == [1, 1, 1, 1, 1, 1, 1, 0]
    ensures P.Computable(Sampled(c))
  {
    var s := Sampled(c);
    var words := P.Words(s.calibration);
    assert words[5] == 1 && words[6] == 1;
    assert C.DT(P.MeasureOf(s), words) == 0 && C.Temperature(0, words) == 2000;
  }

  /** A run in which it happens: sampling, a failed access, a second initialisation, sampling again. Thirteen
      dispatches of any unstarted MS5837. */
  lemma MixedRun(fd: nat, sensor: SensorState) returns (steps: seq<Step>, j: nat, m: nat, k: nat)
    requires sensor.Shaped() && sensor.Unstarted() && sensor.Pressure?
    ensures var trace := Run(Registered(fd, sensor), steps).trace;
      && |steps| == 13
      && j < m < k < |trace| && trace[j].Publish? && trace[k].Publish?
      && (forall l :: j < l < k ==> trace[l].Access?)
      && Ms5837.FailedSampling(trace[m])
      && P.Computable(trace[j].sample)
      && trace[k].data != P.Filtered(SamplesOf(trace[m..k + 1]), sensor.ms.overflowing)
  {
    hide Run, Dispatch, P.Computable, P.Filtered, SamplesOf, PromWords, PromAnswers, CrcMatches, Ms5837.FailedSampling;
    var nibble := MatchingNibble();
    var prom := PromAnswers(PromWords(nibble));
    var r := Registered(fd, sensor);
    var s2 := [Served(FINE), Served(FINE)];
    var s4 := s2 + [Served(FINE), Served(prom)];
    var s7 := s4 + [Served(FINE), Served(FINE), Served(FINE)];
    var s8 := s7 + [Served(BROKEN)];
    var s10 := s8 + [Served(FINE), Served(prom)];
    steps := s10 + [Served(FINE), Served(FINE), Served(FINE)];
    RunNothing(r);
    RunServesTwo(r, [], FINE, FINE);
    assert [] + s2 == s2;
    RunServesTwo(r, s2, FINE, prom);
    RunServesThree(r, s4, FINE, FINE, FINE);
    RunServes(r, s7, BROKEN);
    RunServesTwo(r, s8, FINE, prom);
    RunServesThree(r, s10, FINE, FINE, FINE);
    var c2 := StartRound(fd, sensor);
    var c4 := InitRound(c2, nibble);
    var c7 := SampleRound(c4);
    FailRound(c7);
    var c8 := Dispatch(c7, BROKEN);
    var c10 := InitRound(c8, nibble);
    var c13 := SampleRound(c10);
    SampledComputable(c4);
    j, m, k := |c7.trace| - 1, |c7.trace|, |c13.trace| - 1;
    BetweenPublications(c7.trace, c8.trace, c10.trace, c13.trace);
    FirstAfterFailure(fd, sensor, steps, j, m, k);
  }

  lemma RunNothing(c: Context)
    requires c.sensor.Shaped()
    ensures Run(c, []) == c
  {
  }

  lemma BetweenPublications(t7: seq<Event>, t8: seq<Event>, t10: seq<Event>, t13: seq<Event>)
    requires |t7| > 0 && OnlyAccesses(t7, t8) && OnlyAccesses(t8, t10)
    requires |t13| > |t10| && OnlyAccesses(t10, t13[..|t13| - 1])
    ensures t13[..|t7|] == t7 && t13[..|t8|] == t8
    ensures forall l :: |t7| - 1 < l < |t13| - 1 ==> t13[l].Access?
  {
    var front := t13[..|t13| - 1];
    assert t13[..|t10|] == front[..|t10|] == t10;
    assert t13[..|t8|] == t10[..|t8|] == t8;
    assert t13[..|t7|] == t8[..|t7|] == t7;
    forall l | |t7| - 1 < l < |t13| - 1
      ensures t13[l].Access?
    {
      assert t13[l] == front[l];
      if l < |t10| {
        assert t13[l] == t10[l];
        if l < |t8| {
          assert t10[l] == t8[l];
        }
      }
    }
  }
}
