/** From operator commands to motor values: the body of the control loop. */
module CommandsCycle {
  import opened RealArithmetic
  import opened StaticVector
  import opened StaticMatrix
  import opened RobotSettings
  import opened CommandsQueue
  import P = Pid
  import S = Stabilization

  type Word16 = n: nat | n < 0x1_0000

  datatype Motors = Motors(hi: seq<Word16>, low: seq<Word16>)

  /** What the conversion of a float to 16 bits yields outside [0, 65535], which C++ leaves open. */
  type Beyond = int -> Word16

  function Convert(n: int, beyond: Beyond): Word16 {
    if 0 <= n <= 0xFFFF then n else beyond(n)
  }

  function Stored(s: seq<int>, beyond: Beyond): (t: seq<Word16>)
    ensures |t| == |s|
  {
    seq(|s|, i requires 0 <= i < |s| => Convert(s[i], beyond))
  }

  function Ceil(x: real): (n: int)
    ensures (n - 1) as real < x <= n as real
  {
    -((-x).Floor)
  }

  function Ceils(s: seq<real>): seq<int> {
    seq(|s|, i requires 0 <= i < |s| => Ceil(s[i]))
  }

  method FormMotorsStruct(hiPwm: seq<real>, lowPwm: seq<real>, beyond: Beyond) returns (motors: Motors)
    ensures motors == Motors(Stored(Ceils(hiPwm), beyond), Stored(Ceils(lowPwm), beyond))
  {
    var hi, low := new Word16[|hiPwm|](_ => 0), new Word16[|lowPwm|](_ => 0);
    hide Convert, Ceil;
    for i := 0 to |hiPwm|
      modifies hi
      invariant forall j :: 0 <= j < i ==> hi[j] == Convert(Ceil(hiPwm[j]), beyond)
    {
      hi[i] := Convert(Ceil(hiPwm[i]), beyond);
    }
    for i := 0 to |lowPwm|
      modifies low
      invariant forall j :: 0 <= j < i ==> low[j] == Convert(Ceil(lowPwm[j]), beyond)
    {
      low[i] := Convert(Ceil(lowPwm[i]), beyond);
    }
    motors := Motors(hi[..], low[..]);
  }

  // ---------------------------------------------------------------- mixing

  /** A signal in [-100, 100] as a PWM value. */
  function Pwm(signal: real): int {
    Ceil(Times(signal + 100.0, 10.0))
  }

  /** The thruster signals: every row of the matrix against the move, limited to 100 together. */
  function Mix(s: Settings, move: seq<real>): (m: seq<real>)
    requires s.Shaped() && |move| == 6
    ensures |m| == 12
  {
    NormalizedBound(TimesVector(s.matrix, move), 100.0);
    Normalized(TimesVector(s.matrix, move), 100.0)
  }

  /** The signal on channel c: hand axes fill the channels from the back, thrusters the rest. */
  function Signal(s: Settings, move: seq<real>, hand: seq<real>, c: nat): real
    requires s.Shaped() && s.handFreedom <= 6 && |move| == |hand| == 6 && c < 12
  {
    if 11 - c < s.handFreedom then Times(hand[11 - c], s.hand[11 - c]) else Mix(s, move)[c]
  }

  function HiPwm(s: Settings, move: seq<real>, hand: seq<real>): seq<int>
    requires s.Shaped() && s.handFreedom <= 6 && |move| == |hand| == 6
  {
    seq(12, c requires 0 <= c < 12 => Pwm(Signal(s, move, hand, c)))
  }

  /** The frame that is sent. */
  function Frame(s: Settings, move: seq<real>, hand: seq<real>, lowPwm: seq<real>, beyond: Beyond): Motors
    requires s.Shaped() && s.handFreedom <= 6 && |move| == |hand| == 6
  {
    Motors(Stored(HiPwm(s, move, hand), beyond), Stored(Ceils(lowPwm), beyond))
  }

  method MixMotors(s: Settings, move: seq<real>, hand: seq<real>, lowPwm: seq<real>, beyond: Beyond)
    returns (motors: Motors)
    requires s.Shaped() && s.handFreedom <= 6 && |move| == |hand| == 6
    ensures motors == Frame(s, move, hand, lowPwm, beyond)
  {
    var hiPWM := MultiplyVector(s.matrix, move);
    Normalize(hiPWM, 100.0);
    ghost var mix := Mix(s, move);
    assert hiPWM[..] == mix;
    hide Mix, Times;
    for i := 0 to s.handFreedom
      modifies hiPWM
      invariant forall c :: 0 <= c < 12 ==>
        hiPWM[c] == if 11 - c < i then Times(hand[11 - c], s.hand[11 - c]) else mix[c]
    {
      hiPWM[11 - i] := Times(hand[i], s.hand[i]);
    }
    assert forall c :: 0 <= c < 12 ==> hiPWM[c] == Signal(s, move, hand, c);
    AddTo(hiPWM, 100.0);
    MultiplyBy(hiPWM, 10.0);
    assert Ceils(hiPWM[..]) == HiPwm(s, move, hand);
    motors := FormMotorsStruct(hiPWM[..], lowPwm, beyond);
  }

  /** What is sent, wherever the conversion is defined: the high values as computed, the low ones rounded up. */
  lemma FrameSent(s: Settings, move: seq<real>, hand: seq<real>, lowPwm: seq<real>, beyond: Beyond)
    requires s.Shaped() && s.handFreedom <= 6 && |move| == |hand| == 6
    ensures var frame := Frame(s, move, hand, lowPwm, beyond);
      && |frame.hi| == 12 && |frame.low| == |lowPwm|
      && (forall c :: 0 <= c < 12 ==>
           var n := Pwm(Signal(s, move, hand, c)); 0 <= n <= 65535 ==> frame.hi[c] == n)
      && (forall i :: 0 <= i < |lowPwm| && -1.0 < lowPwm[i] <= 65535.0 ==>
           frame.low[i] as real - 1.0 < lowPwm[i] <= frame.low[i] as real)
  {
    hide Pwm, Signal, Ceil;
  }

  // ---------------------------------------------------------------- channel ownership and range

  lemma PwmRange(signal: real)
    ensures 0 <= Pwm(signal) <= 2000 <==> -100.1 < signal <= 100.0
    ensures signal == 0.0 ==> Pwm(signal) == 1000
    ensures (Pwm(signal) - 1) as real < 10.0 * signal + 1000.0 <= Pwm(signal) as real
  {
    assert Times(signal + 100.0, 10.0) == 10.0 * signal + 1000.0;
  }

  lemma FullPwm(signal: real)
    ensures Meets(signal, 100.0) ==> Pwm(signal) == 0 || Pwm(signal) == 2000
  {
    assert Times(signal + 100.0, 10.0) == 10.0 * signal + 1000.0;
  }

  /** Thruster channels: within range, driven by their own matrix row times one common factor, which slows them down
      no more than is needed: it is 1, or some thruster runs at full power. */
  lemma ThrusterChannels(s: Settings, move: seq<real>, hand: seq<real>) returns (k: real)
    requires s.Usable() && |move| == |hand| == 6
    ensures 0.0 < k <= 1.0
    ensures forall c :: 0 <= c < s.thrustersNumber ==>
      && HiPwm(s, move, hand)[c] == Pwm(Times(Dot(s.matrix[c], move), k))
      && 0 <= HiPwm(s, move, hand)[c] <= 2000
    ensures k == 1.0 || exists c :: 0 <= c < s.thrustersNumber && HiPwm(s, move, hand)[c] in {0, 2000}
  {
    var raw := TimesVector(s.matrix, move);
    k := NormalizedFactor(raw, 100.0);
    NormalizedBound(raw, 100.0);
    assert Mix(s, move) == Normalized(raw, 100.0);
    hide Normalized, Mix, Dot, Pwm, MaxAbs, Times;
    if k != 1.0 {
      var c :| 0 <= c < 12 && Meets(Mix(s, move)[c], 100.0);
      FullPwm(Mix(s, move)[c]);
      if c >= s.thrustersNumber {
        BeyondThrusters(s, move, c);
      }
      assert Signal(s, move, hand, c) == Mix(s, move)[c];
    }
    forall c | 0 <= c < s.thrustersNumber
      ensures HiPwm(s, move, hand)[c] == Pwm(Times(Dot(s.matrix[c], move), k))
      ensures 0 <= HiPwm(s, move, hand)[c] <= 2000
    {
      assert raw[c] == Dot(s.matrix[c], move);
      assert Signal(s, move, hand, c) == Mix(s, move)[c] == Times(Dot(s.matrix[c], move), k);
      PwmRange(Mix(s, move)[c]);
    }
  }

  lemma BeyondThrusters(s: Settings, move: seq<real>, c: nat)
    requires s.Usable() && |move| == 6 && s.thrustersNumber <= c < 12
    ensures Mix(s, move)[c] == 0.0
  {
    DotZero(s.matrix[c], move);
    var k := NormalizedFactor(TimesVector(s.matrix, move), 100.0);
  }

  /** Channels that belong to no thruster and no hand axis stay exactly neutral. */
  lemma IdleChannels(s: Settings, move: seq<real>, hand: seq<real>)
    requires s.Usable() && |move| == |hand| == 6
    ensures forall c :: s.thrustersNumber <= c < 12 - s.handFreedom ==> HiPwm(s, move, hand)[c] == 1000
  {
    var raw := TimesVector(s.matrix, move);
    var k := NormalizedFactor(raw, 100.0);
    forall c | s.thrustersNumber <= c < 12 - s.handFreedom
      ensures HiPwm(s, move, hand)[c] == 1000
    {
      DotZero(s.matrix[c], move);
      assert raw[c] == 0.0;
      hide Normalized, Dot, Times;
      assert Signal(s, move, hand, c) == 0.0;
      PwmRange(0.0);
    }
  }

  /** Hand axis i owns channel 11 - i, and is in range exactly when its product with the coefficient is. */
  lemma HandChannels(s: Settings, move: seq<real>, hand: seq<real>)
    requires s.Usable() && |move| == |hand| == 6
    ensures forall i :: 0 <= i < s.handFreedom ==>
      && 11 - i >= s.thrustersNumber
      && HiPwm(s, move, hand)[11 - i] == Pwm(Times(hand[i], s.hand[i]))
      && (0 <= HiPwm(s, move, hand)[11 - i] <= 2000 <==> -100.1 < Times(hand[i], s.hand[i]) <= 100.0)
  {
    hide Pwm, Times, Mix;
    forall i | 0 <= i < s.handFreedom
      ensures HiPwm(s, move, hand)[11 - i] == Pwm(Times(hand[i], s.hand[i]))
      ensures 0 <= HiPwm(s, move, hand)[11 - i] <= 2000 <==> -100.1 < Times(hand[i], s.hand[i]) <= 100.0
    {
      PwmRange(Times(hand[i], s.hand[i]));
    }
  }

  /** Every value can be converted to 16 bits. */
  predicate Convertible(values: seq<int>) {
    forall c :: 0 <= c < |values| ==> 0 <= values[c] <= 0xFFFF
  }

  /** Conversion keeps every value, whatever happens beyond 16 bits, if and only if all of them fit. */
  lemma StoredExactly(values: seq<int>)
    ensures (forall beyond: Beyond :: Stored(values, beyond) == values) <==> Convertible(values)
  {
    if forall beyond: Beyond :: Stored(values, beyond) == values {
      var zero: Beyond := _ => 0;
      var one: Beyond := _ => 1;
      assert Stored(values, zero) == values == Stored(values, one);
      forall c | 0 <= c < |values|
        ensures 0 <= values[c] <= 0xFFFF
      {
        assert Stored(values, zero)[c] == Stored(values, one)[c];
      }
    }
  }

  lemma PwmConvertible(signal: real)
    ensures 0 <= Pwm(signal) <= 0xFFFF <==> -100.1 < signal <= 6453.5
  {
    assert Times(signal + 100.0, 10.0) == 10.0 * signal + 1000.0;
  }

  lemma CeilConvertible(x: real)
    ensures 0 <= Ceil(x) <= 0xFFFF <==> -1.0 < x <= 65535.0
  {
  }

  /** The 16-bit conversion is defined for the whole frame if and only if it is for the hand axes and the low
      channels: the thrusters can never leave the range. */
  lemma FrameConvertibleExactly(s: Settings, move: seq<real>, hand: seq<real>, lowPwm: seq<real>)
    requires s.Usable() && |move| == |hand| == 6
    ensures Convertible(HiPwm(s, move, hand)) && Convertible(Ceils(lowPwm)) <==>
      && (forall i :: 0 <= i < s.handFreedom ==> -100.1 < Times(hand[i], s.hand[i]) <= 6453.5)
      && (forall i :: 0 <= i < |lowPwm| ==> -1.0 < lowPwm[i] <= 65535.0)
  {
    var k := ThrusterChannels(s, move, hand);
    IdleChannels(s, move, hand);
    HandChannels(s, move, hand);
    hide Pwm, Times, Mix, Dot, Ceil, Signal, HiPwm;
    var hi, low := HiPwm(s, move, hand), Ceils(lowPwm);
    HiPwmLength(s, move, hand);
    forall i | 0 <= i < s.handFreedom
      ensures 0 <= hi[11 - i] <= 0xFFFF <==> -100.1 < Times(hand[i], s.hand[i]) <= 6453.5
    {
      PwmConvertible(Times(hand[i], s.hand[i]));
    }
    forall i | 0 <= i < |lowPwm|
      ensures 0 <= low[i] <= 0xFFFF <==> -1.0 < lowPwm[i] <= 65535.0
    {
      CeilConvertible(lowPwm[i]);
    }
    if forall i :: 0 <= i < s.handFreedom ==> -100.1 < Times(hand[i], s.hand[i]) <= 6453.5 {
      forall c | 0 <= c < 12
        ensures 0 <= hi[c] <= 0xFFFF
      {
        if c >= 12 - s.handFreedom {
          assert 0 <= hi[11 - (11 - c)] <= 0xFFFF;
        }
      }
    }
  }

  lemma HiPwmLength(s: Settings, move: seq<real>, hand: seq<real>)
    requires s.Shaped() && s.handFreedom <= 6 && |move| == |hand| == 6
    ensures |HiPwm(s, move, hand)| == 12
  {
  }

  /** Row c of a settings message. */
  function MessageRow(m: Message, c: nat): (row: seq<real>)
    requires 6 * c + 6 <= |m.thrusters|
    ensures |row| == 6
  {
    m.thrusters[6 * c..6 * c + 6]
  }

  lemma CarriedRow(m: Message, s: Settings, c: nat)
    requires InBounds(m) && Carries(s, m) && c < |m.thrusters| / 6
    ensures s.matrix[c] == MessageRow(m, c)
  {
  }

  lemma BoundedProduct(x: real, y: real)
    requires -1.0 <= x <= 1.0 && Abs(y) <= 100.0
    ensures -100.1 < Times(x, y) <= 100.0
  {
    hide Times;
    TimesCommutes(x, y);
    if y >= 0.0 {
      TimesMonotone(x, 1.0, y);
      TimesMonotone(-1.0, x, y);
      TimesOne(y);
      TimesNegates(1.0, y);
    } else {
      TimesMonotone(x, 1.0, -y);
      TimesMonotone(-1.0, x, -y);
      TimesOne(-y);
      TimesNegates(1.0, -y);
      TimesNegates(x, y);
    }
  }

  /** A move along one axis: thruster c gets what the message has for it and that axis. */
  lemma AlongOneAxis(m: Message, move: seq<real>, c: nat, j: nat)
    requires c < |m.thrusters| / 6 && j < 6 == |move| && forall l :: 0 <= l < 6 && l != j ==> move[l] == 0.0
    ensures Dot(MessageRow(m, c), move) == Times(m.thrusters[6 * c + j], move[j])
  {
    DotAlong(MessageRow(m, c), move, j);
  }

  /** From an accepted settings message to the frame: thruster c is driven by row c of the message alone, hand axis i
      by coefficient i alone on the i-th channel from the back, every other channel rests, and for hand commands in
      [-1, 1] the whole frame is within range. */
  lemma FrameFromMessage(m: Message, s: Settings, move: seq<real>, hand: seq<real>) returns (k: real)
    requires Valid(m) && InBounds(m) && Carries(s, m) && |move| == |hand| == 6
    ensures 0.0 < k <= 1.0
    ensures k == 1.0 || exists c :: 0 <= c < |m.thrusters| / 6 && HiPwm(s, move, hand)[c] in {0, 2000}
    ensures var motors, axes, pwm := |m.thrusters| / 6, |m.hand|, HiPwm(s, move, hand);
      && motors + axes <= 12 == |pwm|
      && (forall c :: 0 <= c < motors ==>
           pwm[c] == Pwm(Times(Dot(MessageRow(m, c), move), k)) && 0 <= pwm[c] <= 2000)
      && (forall c :: motors <= c < 12 - axes ==> pwm[c] == 1000)
      && (forall i :: 0 <= i < axes ==>
           && pwm[11 - i] == Pwm(Times(hand[i], m.hand[i]))
           && (-1.0 <= hand[i] <= 1.0 ==> 0 <= pwm[11 - i] <= 2000))
  {
    hide Pwm, Times, Mix, Dot, Signal, HiPwm, Abs, CarriesRows;
    MessageUsable(m, s);
    HiPwmLength(s, move, hand);
    k := ThrusterChannels(s, move, hand);
    IdleChannels(s, move, hand);
    HandChannels(s, move, hand);
    var motors, pwm := |m.thrusters| / 6, HiPwm(s, move, hand);
    forall c | 0 <= c < motors
      ensures pwm[c] == Pwm(Times(Dot(MessageRow(m, c), move), k)) && 0 <= pwm[c] <= 2000
    {
      CarriedRow(m, s, c);
    }
    forall i | 0 <= i < |m.hand|
      ensures -1.0 <= hand[i] <= 1.0 ==> 0 <= pwm[11 - i] <= 2000
    {
      if -1.0 <= hand[i] <= 1.0 {
        BoundedProduct(hand[i], m.hand[i]);
      }
    }
  }

  lemma MessageUsable(m: Message, s: Settings)
    requires Valid(m) && InBounds(m) && Carries(s, m)
    ensures s.Usable() && s.thrustersNumber == |m.thrusters| / 6 && s.handFreedom == |m.hand|
    ensures forall i :: 0 <= i < |m.hand| ==> s.hand[i] == m.hand[i]
  {
    ValidIsUsable(m, s);
  }

  // ---------------------------------------------------------------- failsafe

  const ALL_STOP := Motors([1000, 1000, 1000, 1000, 1000, 1000, 1000, 1000, 1000, 1000, 1000, 1000], [0, 0, 0, 0])

  /** Neutral commands stop everything, whatever the settings. */
  lemma NeutralStops(s: Settings, beyond: Beyond)
    requires s.Shaped() && s.handFreedom <= 6
    ensures Frame(s, NEUTRAL.move, NEUTRAL.hand, NEUTRAL.lowPwm, beyond) == ALL_STOP
  {
    var raw := TimesVector(s.matrix, NEUTRAL.move);
    forall c | 0 <= c < 12
      ensures raw[c] == 0.0
    {
      DotNothing(s.matrix[c], NEUTRAL.move);
    }
    var k := NormalizedFactor(raw, 100.0);
    forall c | 0 <= c < 12
      ensures HiPwm(s, NEUTRAL.move, NEUTRAL.hand)[c] == 1000
    {
      if 11 - c < s.handFreedom {
        TimesOne(s.hand[11 - c]);
      }
      hide Normalized, Times;
      assert Signal(s, NEUTRAL.move, NEUTRAL.hand, c) == 0.0;
      PwmRange(0.0);
    }
    assert HiPwm(s, NEUTRAL.move, NEUTRAL.hand) == ALL_STOP.hi;
    assert Ceils(NEUTRAL.lowPwm) == ALL_STOP.low;
  }

  // ---------------------------------------------------------------- the loop body

  /** Stabilisation adds to the planar and turning components and replaces depth and pitch. */
  function Corrected(move: seq<real>, correction: seq<real>): seq<real>
    requires |move| == |correction| == 6
  {
    [move[0] + correction[0], move[1] + correction[1], correction[2],
     move[3] + correction[3], correction[4], move[5] + correction[5]]
  }

  /** What the regulators are told in one pass. */
  function Regulated(dt: real, c: Commands, settings: Settings, sensors: S.Sensors): P.Event
    requires settings.Shaped() && c.Shaped()
  {
    if c.stabilization then P.Update(dt, S.Errors(c.target, sensors), settings.p, settings.i, settings.d) else P.Reset
  }

  /** The commanded move with the correction that the regulators ask for after the history. */
  function Stabilized(history: P.History, c: Commands, settings: Settings, sensors: S.Sensors,
                      sin: real -> real, cos: real -> real): (m: seq<real>)
    requires settings.Shaped() && c.Shaped() && |history| > 0 && history[|history| - 1].Update?
  {
    S.CorrectionIsLimited(P.Output(history), settings.enabled, sensors, sin, cos);
    Corrected(c.move, S.Correction(P.Output(history), settings.enabled, sensors, sin, cos))
  }

  /** What the thrusters are mixed from, with the regulators' history up to and including this pass. */
  function Moved(history: P.History, c: Commands, settings: Settings, sensors: S.Sensors,
                 sin: real -> real, cos: real -> real): (m: seq<real>)
    requires settings.Shaped() && c.Shaped()
    requires c.stabilization ==> |history| > 0 && history[|history| - 1].Update?
    ensures |m| == 6
  {
    if c.stabilization then Stabilized(history, c, settings, sensors, sin, cos) else c.move
  }

  // ---------------------------------------------------------------- what stabilisation does to a command

  /** While stabilisation is on, the commanded depth and pitch components do not matter: not to the regulators, not to
      the move and not to the frame. */
  lemma DepthAndPitchReplaced(history: P.History, c: Commands, x: real, y: real, dt: real, settings: Settings,
                              sensors: S.Sensors, sin: real -> real, cos: real -> real, beyond: Beyond)
    requires settings.Shaped() && settings.handFreedom <= 6 && c.Shaped() && c.stabilization
    requires |history| > 0 && history[|history| - 1].Update?
    ensures var c' := c.(move := c.move[2 := x][4 := y]);
      && Regulated(dt, c', settings, sensors) == Regulated(dt, c, settings, sensors)
      && Moved(history, c', settings, sensors, sin, cos) == Moved(history, c, settings, sensors, sin, cos)
      && Frame(settings, Moved(history, c', settings, sensors, sin, cos), c'.hand, c'.lowPwm, beyond)
           == Frame(settings, Moved(history, c, settings, sensors, sin, cos), c.hand, c.lowPwm, beyond)
  {
    hide S.Correction, Frame, IsMatrix;
  }

  /** A commanded component is replaced. */
  predicate Replaced(i: nat) {
    i == 2 || i == 4
  }

  /** The other commanded components are passed on on top of the correction: what is added to one is added to that
      component of the move and to no other. */
  lemma OthersAdded(history: P.History, c: Commands, i: nat, x: real, settings: Settings,
                    sensors: S.Sensors, sin: real -> real, cos: real -> real)
    requires settings.Shaped() && c.Shaped() && c.stabilization && i < 6 && !Replaced(i)
    requires |history| > 0 && history[|history| - 1].Update?
    ensures var move := Moved(history, c, settings, sensors, sin, cos);
      Moved(history, c.(move := c.move[i := c.move[i] + x]), settings, sensors, sin, cos)
        == move[i := move[i] + x]
  {
    hide S.Correction, IsMatrix;
  }

  /** With every axis disabled, nothing is added and the replaced components are zero. */
  lemma DisabledAddsNothing(history: P.History, c: Commands, settings: Settings,
                            sensors: S.Sensors, sin: real -> real, cos: real -> real)
    requires settings.Shaped() && c.Shaped() && c.stabilization && forall l :: 0 <= l < 4 ==> !settings.enabled[l]
    requires |history| > 0 && history[|history| - 1].Update?
    ensures Moved(history, c, settings, sensors, sin, cos) == c.move[2 := 0.0][4 := 0.0]
  {
    S.CorrectionIsLimited(P.Output(history), settings.enabled, sensors, sin, cos);
    hide S.Correction, IsMatrix;
  }

  // ---------------------------------------------------------------- from a settings message to the move

  /** The regulators' history with a reset after h, then n passes of the loop with the same inputs. */
  function Passes(h: P.History, dt: real, c: Commands, settings: Settings, sensors: S.Sensors, n: nat): (r: P.History)
    requires settings.Shaped() && c.Shaped() && dt > 0.0
    ensures |r| == |h| + 1 + n
    ensures c.stabilization && n > 0 ==> r[|r| - 1].Update?
  {
    if n == 0 then h + [P.Event.Reset]
    else Passes(h, dt, c, settings, sensors, n - 1) + [Regulated(dt, c, settings, sensors)]
  }

  lemma {:induction false} PassesAreSteady(h: P.History, dt: real, c: Commands, settings: Settings,
                                           sensors: S.Sensors, n: nat)
    requires settings.Shaped() && c.Shaped() && dt > 0.0 && c.stabilization
    ensures Passes(h, dt, c, settings, sensors, n)
         == P.Steady(h, dt, S.Errors(c.target, sensors), settings.p, settings.i, settings.d, n)
  {
    hide S.Errors, IsMatrix;
    if n == 0 {
    } else {
      PassesAreSteady(h, dt, c, settings, sensors, n - 1);
    }
  }

  /** What one regulator answers to the n-th equal error after a reset. `jump` is the error of lane 2, `held` the
      derivative from before the reset. */
  function SteadyAnswer(g: PidEntry, e: real, jump: real, held: real, dt: real, n: nat): real
    requires dt > 0.0
  {
    Times(g.p, e) + Times(n as real, Times(g.i, Times(dt, e)))
      + (if n >= 2 then 0.0 else if -jump < 0.000001 then Times(g.d, e / dt) else held)
  }

  lemma SteadyOutput(m: Message, s: Settings, h: P.History, dt: real, c: Commands, sensors: S.Sensors, n: nat, l: nat)
    requires InBounds(m) && Carries(s, m) && c.Shaped() && c.stabilization && dt > 0.0 && n > 0 && l < 4
    ensures var e, passes := S.Errors(c.target, sensors), Passes(h, dt, c, s, sensors, n);
      && passes[|passes| - 1].Update?
      && P.Output(passes)[l] == SteadyAnswer(m.pid[l], e[l], e[2], P.Derivative(h, l), dt, n)
  {
    hide S.Errors, P.Output, P.Derivative, Times, IsMatrix, CarriesRows;
    PassesAreSteady(h, dt, c, s, sensors, n);
    P.SteadyError(h, dt, S.Errors(c.target, sensors), s.p, s.i, s.d, n, l);
  }

  function SteadyAnswers(m: Message, h: P.History, e: P.Lanes, dt: real, n: nat): P.Lanes
    requires |m.pid| >= 4 && dt > 0.0
  {
    seq(4, l requires 0 <= l < 4 => SteadyAnswer(m.pid[l], e[l], e[2], P.Derivative(h, l), dt, n))
  }

  lemma SteadyOutputs(m: Message, s: Settings, h: P.History, dt: real, c: Commands, sensors: S.Sensors, n: nat)
    requires InBounds(m) && Carries(s, m) && c.Shaped() && c.stabilization && dt > 0.0 && n > 0
    ensures P.Output(Passes(h, dt, c, s, sensors, n)) == SteadyAnswers(m, h, S.Errors(c.target, sensors), dt, n)
  {
    hide S.Errors, P.Output, P.Derivative, Times, IsMatrix, CarriesRows, SteadyAnswer;
    var passes, e := Passes(h, dt, c, s, sensors, n), S.Errors(c.target, sensors);
    forall l | 0 <= l < 4
      ensures P.Output(passes)[l] == SteadyAnswer(m.pid[l], e[l], e[2], P.Derivative(h, l), dt, n)
    {
      SteadyOutput(m, s, h, dt, c, sensors, n, l);
    }
  }

  /** From a settings message to the move: entry l of the message drives axis l if its flag is set, against the error
      of that axis, and adds to the command or replaces it. One factor k scales the whole correction. */
  lemma MoveFromMessage(m: Message, s: Settings, h: P.History, dt: real, c: Commands, sensors: S.Sensors, n: nat,
                        sin: real -> real, cos: real -> real) returns (k: real)
    requires InBounds(m) && Carries(s, m) && c.Shaped() && c.stabilization && dt > 0.0 && n > 0
    ensures 0.0 < k <= 1.0
    ensures var move := Moved(Passes(h, dt, c, s, sensors, n), c, s, sensors, sin, cos);
      var u := SteadyAnswers(m, h, S.Errors(c.target, sensors), dt, n);
      var y := if sensors.y >= 270.0 then sensors.y - 360.0 else sensors.y;
      var force := if m.enabledH then Times(k, u[3]) else 0.0;
      && move[0] == c.move[0] - Times(force, sin(y))
      && move[1] == c.move[1] + Times(Times(force, sin(sensors.x)), cos(sensors.x))
      && move[2] == Times(Times(force, cos(sensors.x)), cos(y))
      && move[3] == c.move[3] - (if m.enabledX then Times(k, u[0]) else 0.0)
      && move[4] == -(if m.enabledY then Times(k, u[1]) else 0.0)
      && move[5] == c.move[5] - (if m.enabledZ then Times(k, u[2]) else 0.0)
  {
    hide S.Errors, P.Output, P.Derivative, Times, IsMatrix, CarriesRows, SteadyAnswers, S.Correction, S.Measured;
    hide Meets, Passes;
    var passes := Passes(h, dt, c, s, sensors, n);
    SteadyOutputs(m, s, h, dt, c, sensors, n);
    StabilizedIs(passes, c, s, sensors, sin, cos);
    k := S.CorrectionDrives(P.Output(passes), s.enabled, sensors, sin, cos);
    var correction := S.Correction(P.Output(passes), s.enabled, sensors, sin, cos);
    hide Stabilized;
    assert s.enabled[0] == m.enabledX && s.enabled[1] == m.enabledY && s.enabled[2] == m.enabledZ;
    assert correction[3] == if s.enabled[0] then -Times(k, P.Output(passes)[0]) else 0.0;
    assert correction[4] == if s.enabled[1] then -Times(k, P.Output(passes)[1]) else 0.0;
    assert correction[5] == if s.enabled[2] then -Times(k, P.Output(passes)[2]) else 0.0;
  }

  class CommandsCycle {
    const commandsQueue: Queue
    const stabilization: S.Stabilization
    const beyond: Beyond

    ghost function State(): set<object>
      reads this
    {
      var pids := stabilization.pids;
      {commandsQueue, pids, pids.iArray.sums, pids.dArray.prevErrors, pids.dArray.values,
       pids.pArray, pids.iArray, pids.dArray}
    }

    ghost predicate Valid()
      reads this, commandsQueue, stabilization, State()
    {
      && commandsQueue.Valid() && stabilization.pids.Valid()
      && (forall i :: 0 <= i < |commandsQueue.history| && commandsQueue.history[i].Add? ==>
           commandsQueue.history[i].commands.Shaped())
    }

    constructor (beyond: Beyond)
      ensures Valid() && commandsQueue.history == []
    {
      this.beyond := beyond;
      commandsQueue := new Queue();
      var zero := new real[4](_ => 0.0);
      stabilization := new S.Stabilization(zero, zero, zero);
    }

    method UpdateCommands(c: Commands)
      requires Valid() && c.Shaped()
      modifies commandsQueue
      ensures Valid() && commandsQueue.history == old(commandsQueue.history) + [Add(c)]
    {
      commandsQueue.AddCommands(c);
    }

    /** One pass of the loop. The regulators see an update while stabilisation is on and a reset otherwise, and
        `move` is what the thrusters are mixed from. */
    method Cycle(dt: real, settings: Settings, sensors: S.Sensors, sin: real -> real, cos: real -> real)
      returns (motors: Motors, ghost move: seq<real>)
      requires Valid() && dt > 0.0 && settings.Shaped() && settings.handFreedom <= 6
      modifies State()
      ensures Valid() && commandsQueue.history == old(commandsQueue.history) + [Get]
      ensures var c := Answer(commandsQueue.history);
        && |move| == 6 && c.Shaped()
        && motors == Frame(settings, move, c.hand, c.lowPwm, beyond)
        && stabilization.pids.history == old(stabilization.pids.history) + [Regulated(dt, c, settings, sensors)]
        && move == Moved(stabilization.pids.history, c, settings, sensors, sin, cos)
      ensures GetsSinceAdd(commandsQueue.history) >= MAX_COUNT ==> motors == ALL_STOP
    {
      var commands := commandsQueue.GetCommands();
      AnswerShaped(commandsQueue.history);
      hide Answer, LastAdded, GetsSinceAdd, Frame, HiPwm, Ceils, Stabilized;
      ghost var h := commandsQueue.history;
      var m := commands.move;
      if commands.stabilization {
        m := AddStabilization(dt, commands, settings, sensors, sin, cos);
      } else {
        stabilization.pids.Reset();
      }
      motors := MixMotors(settings, m, commands.hand, commands.lowPwm, beyond);
      move := m;
      NeutralStops(settings, beyond);
      ExpiredIsNeutral(h);
    }

    method SetCoefficients(settings: Settings)
      requires stabilization.pids.Valid()
      modifies stabilization.pids.pArray, stabilization.pids.iArray, stabilization.pids.dArray
      ensures stabilization.Valid()
      ensures stabilization.pids.pArray.coefficients[..] == settings.p
      ensures stabilization.pids.iArray.coefficients[..] == settings.i
      ensures stabilization.pids.dArray.coefficients[..] == settings.d
    {
      var p := new real[4](i requires 0 <= i < 4 => settings.p[i]);
      var k := new real[4](i requires 0 <= i < 4 => settings.i[i]);
      var d := new real[4](i requires 0 <= i < 4 => settings.d[i]);
      stabilization.pids.pArray.SetArray(p);
      stabilization.pids.iArray.SetArray(k);
      stabilization.pids.dArray.SetArray(d);
    }

    /** The stabilised branch. */
    method AddStabilization(dt: real, commands: Commands, settings: Settings, sensors: S.Sensors,
                            sin: real -> real, cos: real -> real)
      returns (m: seq<real>)
      requires stabilization.pids.Valid() && dt > 0.0 && settings.Shaped() && commands.Shaped()
      requires commands.stabilization
      modifies State() - {commandsQueue}
      ensures stabilization.pids.Valid()
      ensures stabilization.pids.history
           == old(stabilization.pids.history) + [Regulated(dt, commands, settings, sensors)]
      ensures |m| == 6 && m == Stabilized(stabilization.pids.history, commands, settings, sensors, sin, cos)
    {
      hide S.Correction, S.Limited, S.Errors, Stabilized, Regulated, Corrected, IsMatrix;
      SetCoefficients(settings);
      RegulatedUpdate(dt, commands, settings, sensors);
      var stabilizationMove := stabilization.Calculate(dt, commands.target, settings.enabled, sensors, sin, cos);
      LimitedShape(stabilizationMove[..], settings.enabled);
      m := Correct(commands.move, stabilizationMove);
      StabilizedIs(stabilization.pids.history, commands, settings, sensors, sin, cos);
    }
  }

  lemma RegulatedUpdate(dt: real, c: Commands, settings: Settings, sensors: S.Sensors)
    requires settings.Shaped() && c.Shaped() && dt > 0.0 && c.stabilization
    ensures Regulated(dt, c, settings, sensors)
         == P.Update(dt, S.Errors(c.target, sensors), settings.p, settings.i, settings.d)
  {
  }

  lemma StabilizedIs(history: P.History, c: Commands, settings: Settings, sensors: S.Sensors,
                     sin: real -> real, cos: real -> real)
    requires settings.Shaped() && c.Shaped() && |history| > 0 && history[|history| - 1].Update?
    ensures var correction := S.Correction(P.Output(history), settings.enabled, sensors, sin, cos);
      |correction| == 6 && Stabilized(history, c, settings, sensors, sin, cos) == Corrected(c.move, correction)
  {
    S.CorrectionIsLimited(P.Output(history), settings.enabled, sensors, sin, cos);
    hide S.Correction;
  }

  method Correct(move: seq<real>, correction: array<real>) returns (m: seq<real>)
    requires |move| == 6 == correction.Length
    ensures |m| == 6 && m == Corrected(move, correction[..])
  {
    m := move;
    m := m[0 := m[0] + correction[0]];
    m := m[1 := m[1] + correction[1]];
    m := m[2 := correction[2]];
    m := m[3 := m[3] + correction[3]];
    m := m[4 := correction[4]];
    m := m[5 := m[5] + correction[5]];
  }

  lemma LimitedShape(move: seq<real>, enabled: seq<bool>)
    requires |enabled| == 4 && S.Limited(move, enabled)
    ensures |move| == 6
  {
  }

  lemma ExpiredIsNeutral(h: seq<Event>)
    ensures GetsSinceAdd(h) >= MAX_COUNT ==> Answer(h) == NEUTRAL && !NEUTRAL.stabilization
  {
  }
}
