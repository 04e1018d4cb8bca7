/** Validation and parsing of the thruster and hand settings message. */
module RobotSettings {
  import opened StaticVector
  import opened StaticMatrix
  import opened Pid

  datatype PidEntry = PidEntry(p: real, i: real, d: real)

  /** The repeated and required fields of a settings message, after protobuf decoding. */
  datatype Message = Message(
    thrusters: seq<real>,
    hand: seq<real>,
    pid: seq<PidEntry>,
    enabledX: bool, enabledY: bool, enabledZ: bool, enabledH: bool)

  datatype Settings = Settings(
    matrix: seq<seq<real>>,
    hand: seq<real>,
    thrustersNumber: nat,
    handFreedom: nat,
    p: Lanes, i: Lanes, d: Lanes,
    enabled: seq<bool>)
  {
    /** The fixed shapes of the arrays. */
    predicate Shaped() {
      IsMatrix(matrix, 12, 6) && |hand| == 6 && |enabled| == 4
    }

    /** What the control loop relies on. */
    predicate Usable() {
      && Shaped()
      && thrustersNumber + handFreedom <= 12 && handFreedom <= 4
      && forall r, c :: thrustersNumber <= r < 12 && 0 <= c < 6 ==> matrix[r][c] == 0.0
    }
  }

  datatype Fault = HandFreedom | MatrixShape | TooManyMotors | Coefficient | OutOfRange

  datatype Result<T> = Ok(value: T) | Error(fault: Fault)

  // ---------------------------------------------------------------- validation

  predicate InLimit(values: seq<real>) {
    forall i :: 0 <= i < |values| ==> Abs(values[i]) <= 100.0
  }

  predicate Valid(m: Message) {
    && |m.hand| <= 4
    && |m.thrusters| % 6 == 0
    && |m.hand| + |m.thrusters| / 6 <= 12
    && InLimit(m.thrusters)
    && InLimit(m.hand)
  }

  method WriteValidate(m: Message) returns (r: Result<bool>)
    ensures r.Ok? <==> Valid(m)
    ensures r.Ok? <==>
      && |m.hand| <= 4 && |m.thrusters| % 6 == 0 && |m.hand| + |m.thrusters| / 6 <= 12
      && (forall i :: 0 <= i < |m.thrusters| ==> -100.0 <= m.thrusters[i] <= 100.0)
      && (forall i :: 0 <= i < |m.hand| ==> -100.0 <= m.hand[i] <= 100.0)
    ensures r.Ok? ==> r.value
    ensures r == Error(HandFreedom) <==> |m.hand| > 4
    ensures r == Error(MatrixShape) <==> |m.hand| <= 4 && |m.thrusters| % 6 != 0
    ensures r == Error(TooManyMotors) <==>
      |m.hand| <= 4 && |m.thrusters| % 6 == 0 && |m.hand| + |m.thrusters| / 6 > 12
    ensures r != Error(OutOfRange)
  {
    if |m.hand| < 0 || |m.hand| > 4 {
      return Error(HandFreedom);
    }
    if |m.thrusters| % 6 != 0 {
      return Error(MatrixShape);
    }
    if |m.hand| + |m.thrusters| / 6 > 12 {
      return Error(TooManyMotors);
    }
    for i := 0 to |m.thrusters|
      invariant InLimit(m.thrusters[..i])
    {
      if Abs(m.thrusters[i]) > 100.0 {
        return Error(Coefficient);
      }
    }
    assert m.thrusters[..|m.thrusters|] == m.thrusters;
    for i := 0 to |m.hand|
      invariant InLimit(m.hand[..i])
    {
      if Abs(m.hand[i]) > 100.0 {
        return Error(Coefficient);
      }
    }
    assert m.hand[..|m.hand|] == m.hand;
    return Ok(true);
  }

  // ---------------------------------------------------------------- parsing

  /** Every array and list access of the parser is in bounds. */
  predicate InBounds(m: Message) {
    |m.hand| <= 6 && |m.thrusters| <= 72 && |m.pid| >= 4
  }

  predicate CarriesRows(matrix: seq<seq<real>>, thrusters: seq<real>)
    requires IsMatrix(matrix, 12, 6)
  {
    forall r, c :: 0 <= r < 12 && 0 <= c < 6 ==>
      matrix[r][c] == if 6 * r + c < |thrusters| then thrusters[6 * r + c] else 0.0
  }

  /** The settings carry the message: coefficients row by row, zeros elsewhere. */
  predicate Carries(s: Settings, m: Message)
    requires InBounds(m)
  {
    && s.Shaped()
    && s.handFreedom == |m.hand| && s.thrustersNumber == |m.thrusters| / 6
    && (forall i :: 0 <= i < 6 ==> s.hand[i] == if i < |m.hand| then m.hand[i] else 0.0)
    && CarriesRows(s.matrix, m.thrusters)
    && (forall l :: 0 <= l < 4 ==> s.p[l] == m.pid[l].p && s.i[l] == m.pid[l].i && s.d[l] == m.pid[l].d)
    && s.enabled == [m.enabledX, m.enabledY, m.enabledZ, m.enabledH]
  }

  lemma RowsCarry(matrix: array2<real>, thrusters: seq<real>)
    requires matrix.Length0 == 12 && matrix.Length1 == 6
    requires forall r, c :: 0 <= r < 12 && 0 <= c < 6 ==>
      matrix[r, c] == if 6 * r + c < |thrusters| then thrusters[6 * r + c] else 0.0
    ensures CarriesRows(Rows(matrix), thrusters)
  {
  }

  lemma RowMajor(i: nat)
    ensures 6 * (i / 6) + i % 6 == i
    ensures i < 72 ==> i / 6 < 12
  {
  }

  /** An access outside its array is undefined in C++; the model reports it. */
  method ParseSettings(m: Message) returns (r: Result<Settings>)
    ensures r.Ok? <==> InBounds(m)
    ensures r.Ok? ==> Carries(r.value, m)
    ensures r.Error? ==> r.fault == OutOfRange
  {
    hide CarriesRows, Rows;
    var matrix := new real[12, 6]((_, _) => 0.0);
    var hand := new real[6](_ => 0.0);

    var handFreedom := |m.hand|;
    if handFreedom > 6 {
      return Error(OutOfRange);
    }
    for i := 0 to handFreedom
      modifies hand
      invariant forall j :: 0 <= j < 6 ==> hand[j] == if j < i then m.hand[j] else 0.0
    {
      hand[i] := m.hand[i];
    }

    var thrustersNumber := |m.thrusters| / 6;
    if |m.thrusters| > 72 {
      return Error(OutOfRange);
    }
    for i := 0 to |m.thrusters|
      modifies matrix
      invariant forall r, c :: 0 <= r < 12 && 0 <= c < 6 ==>
        matrix[r, c] == if 6 * r + c < i then m.thrusters[6 * r + c] else 0.0
    {
      RowMajor(i);
      matrix[i / 6, i % 6] := m.thrusters[i];
    }

    RowsCarry(matrix, m.thrusters);
    if |m.pid| < 4 {
      return Error(OutOfRange);
    }
    var p, k, d := new real[4](_ => 0.0), new real[4](_ => 0.0), new real[4](_ => 0.0);
    for i := 0 to 4
      modifies p, k, d
      invariant forall j :: 0 <= j < i ==> p[j] == m.pid[j].p && k[j] == m.pid[j].i && d[j] == m.pid[j].d
    {
      p[i], k[i], d[i] := m.pid[i].p, m.pid[i].i, m.pid[i].d;
    }
    r := Ok(Settings(Rows(matrix), hand[..], thrustersNumber, handFreedom, p[..], k[..], d[..],
                     [m.enabledX, m.enabledY, m.enabledZ, m.enabledH]));
  }

  // ---------------------------------------------------------------- validation against parsing

  /** A validated message is parsed in bounds exactly when it brings four PID entries,
      which validation does not ask for. */
  lemma ValidParsesExactly(m: Message)
    requires Valid(m)
    ensures InBounds(m) <==> |m.pid| >= 4
  {
    assert |m.thrusters| == 6 * (|m.thrusters| / 6);
  }

  /** Validation accepts a message that the parser reads out of range. */
  lemma ValidMayOverrun() returns (m: Message)
    ensures Valid(m) && !InBounds(m)
  {
    m := Message([], [], [], false, false, false, false);
  }

  /** Settings parsed from a validated message have disjoint thruster and hand channels and zero rows beyond
      the thrusters. */
  lemma ValidIsUsable(m: Message, s: Settings)
    requires Valid(m) && InBounds(m) && Carries(s, m)
    ensures s.Usable()
    ensures forall r, c :: 0 <= r < 12 && 0 <= c < 6 ==> Abs(s.matrix[r][c]) <= 100.0
  {
    assert |m.thrusters| == 6 * s.thrustersNumber;
  }

  /** Settings read from the file at start-up are parsed without validation. They are usable if and only if the
      message has at most four hand axes, no more motors than channels, and zeros in an incomplete last row. */
  lemma UsableExactly(m: Message, s: Settings)
    requires InBounds(m) && Carries(s, m)
    ensures s.Usable() <==>
      && |m.hand| <= 4
      && |m.thrusters| / 6 + |m.hand| <= 12
      && forall i :: 6 * (|m.thrusters| / 6) <= i < |m.thrusters| ==> m.thrusters[i] == 0.0
  {
    var t := |m.thrusters| / 6;
    if s.Usable() {
      forall i | 6 * t <= i < |m.thrusters|
        ensures m.thrusters[i] == 0.0
      {
        RowMajor(i);
        assert s.matrix[i / 6][i % 6] == m.thrusters[i];
      }
    }
  }

  /** A message that the parser accepts and the file may hold: twelve thrusters and a hand axis on one of their
      channels. */
  lemma FileMayOverlap() returns (m: Message)
    ensures InBounds(m) && !Valid(m)
    ensures forall s: Settings :: Carries(s, m) ==> s.thrustersNumber + s.handFreedom == 13 && !s.Usable()
  {
    var none := PidEntry(0.0, 0.0, 0.0);
    m := Message(seq(72, _ => 1.0), [1.0], [none, none, none, none], false, false, false, false);
  }
}
