# Verified model of the underwater robot's control software

This project models the parts of the robot's control software where a mistake is hard to see and proves what they
are for, with Dafny 4.11. `dafny verify dfyconfig.toml` checks everything.

## What is modelled

- **PROM check of the MS5837 pressure sensor** (`Gf2Polynomial`, `Crc4`, `PromCheck`). The bit-serial register is
  proved to compute a polynomial remainder over GF(2), for input of any length; from that follows exactly which
  errors the check detects, in all 112 bits. Polynomials are natural numbers read as bit strings.
- **Pressure and temperature compensation** (`Compensation`, `Datasheet`), in 32- and 64-bit integers with truncating
  division: exactly when nothing overflows and when nothing is lost, how far the result is from the formula in rational
  numbers, and monotonicity across the regimes.
- **Sensor scheduling.** The coroutines of the MS5837 (`Ms5837`) and of the BNO055 (`Bno055`) are machines with one
  program point per `co_await`, over a bus oracle and with a trace of accesses. `SensorMachine` joins the two
  coroutines, their promise flags, the timer and the Online/Offline state; `SensorSchedule` is the handler with its
  batches; `Waits` has the delays between accesses and `Recovery` bounds how long a healthy device needs to be sampled
  again. `PressureSensor`, `OrientationSensor` and `SensorHandler` are the objects that update their fields in place,
  each proved to be a step of its machine.
- **From raw samples to published data** (`PressureValues`, `OrientationValues`, `Publications`, `Published`,
  `Mixing`, `Attitude`, `DeviceWords`): compensation, unpacking and filters composed with the machines, so that what is
  set at each publication of a run is traced back to the raw samples and initialisations behind it, and on to the angle
  that stabilisation measures. `DeviceWords` starts from the register contents of a BNO055 that holds still.
- **Command cycle** (`RobotSettings`, `CommandsQueue`, `Stabilization`, `CommandsCycle`): settings validation and
  parsing, the dead-man counter, stabilisation, thruster mixing and PWM values, from a settings message to the move and
  the frame.
- **Linear algebra, regulators and filters** (`StaticVector`, `StaticMatrix`, `Pid`, `MovingAverage`,
  `CircleMovingAverage`): block-of-four loops against plain definitions, and stateful objects against closed forms
  over the whole history of calls. The module `Ring` has what both filters share. `RealArithmetic` has the laws of
  products of reals that these proofs use.
- **Request protocol** (`Wire`, `TcpSession`): little-endian framing, the request loop with its exceptions, and the
  buffer shared by input, decompression and compression.

Oracles stand for what the code cannot decide itself: bus answers (`nat -> Answer`, one function per resume), epoll
batches, the file descriptors of new timers, the services behind the endpoints, the compressor (an inverse pair with
a size bound), the number of responses that a client takes, what the compensation yields where its signed arithmetic
overflows and a conversion to 16 bits beyond its range, and sine, cosine and arc cosine (with the laws in
`Trigonometry`).

## What the proofs found

- The very cold guard `temperature / 100 < -15` takes effect at -1600, not below -1500, because the division
  truncates (`Compensation.GuardsInHundredths`).
- The warm branch squares `dT` in 32 bits. It overflows exactly when |dT| > 32767, which every reading above 22.56
  degrees does (`Compensation.CalculateOverflowsExactly`, `Compensation.WarmLimit`; `Compensation.WarmOverflows` is
  one at 23.37 degrees); where it does not overflow, the correction `Ti` it computes is always 0.
- `WriteValidate` accepts messages with fewer than four PID entries, which `ParseSettings` then reads out of range
  (`RobotSettings.ValidMayOverrun`; `RobotSettings.ValidParsesExactly` is the exact condition).
- Below -167.21 degrees, which extreme calibration words can produce, the stored `OFFi` loses bits before anything
  overflows, and the pressure comes out 524288 units (52.4 bar) too low (`Datasheet.CalculateAccuracy`).
- The sideways component of the depth correction has the cosine of the angle about x where that of the angle about y is
  needed. The push is vertical and of the size asked for only if the robot does not lean to the side or the two cosines
  agree (`Stabilization.DepthForceVerticalExactly`).
- Settings loaded from the file at start-up are parsed without `WriteValidate`, so that a hand axis and a thruster may
  share a channel (`RobotSettings.UsableExactly`, `RobotSettings.FileMayOverlap`).
- `CircleMovingAverage` takes the arc cosine of a mean cosine without normalising the mean, so its answer is not the
  direction of the mean: off the axes it is so only when the ring is full of angles that all point the same way
  (`CircleMovingAverage.ReportPointsExactly`, `CircleMovingAverage.MeanOnCircleExactly`). The first N - 1 answers to
  a steady angle off the axes point elsewhere (`CircleMovingAverage.EarlyReport`), and angles that alternate between
  a and -a, such as 179 and -179 degrees, are answered by 0 (`CircleMovingAverage.OppositeAnglesReported`).
- `CircleMovingAverage` moves every steady angle into [0, 2 pi), negative ones included, although the BNO055 coroutine
  feeds it signed angles (`CircleMovingAverage.SteadyAngleExactly`, `CircleMovingAverage.NegativeAngleReported`).
  Stabilisation undoes this for the pitch (`Attitude.PitchMeasuredExactly`) and not for the angles about x and z
  (`Attitude.OtherAxesMeasuredExactly`).
- An angle error above 180 degrees is reflected instead of reduced by a turn, so the regulators are told to turn the
  wrong way (`Stabilization.FoldedSameWay`, `Stabilization.FoldedOppositeWay`).
- The filters are not cleared when a sensor is initialised again: the first published pressure, and the first 9
  published orientations (19 for the angle about z), still average what was taken before the failure
  (`Published.PressurePublished`, `Published.OrientationPublished`; `Mixing.FirstAfterFailure` and `Mixing.MixedRun`
  for a value that differs from what the samples since the failure give).
- A read or write-read response carries the uncompressed size in its `EndpointId` field, and a response that is too
  large to compress is reported as an overflow after the service has already acted (`TcpSession.AnswersArrive`,
  `TcpSession.PayloadsArrive`).
- The body of a request longer than 1024 bytes stays in the stream and is parsed as the next header, so requests are
  recovered only when all of them are within the limit (`TcpSession.ReadsFront`, `TcpSession.RecoveredExactly`).
- A write that fails closes the connection and tells the services, unless the response reports an error: that one is
  sent from a catch clause, so the exception leaves the accept loop as well and no service is told
  (`TcpSession.WritesCutSession`).

## Model

| member | source | states |
|---|---|---|
| Crc4.RegisterCongruent | src/Lib/Peripheral/MS5837_I2C.cpp:160-173 | For byte strings of any length the 16-bit register is congruent to (bytes read as one polynomial)·x^8 modulo x^16+x^13+x^12 over GF(2) |
| Crc4.RemainderUnique | src/Lib/Peripheral/MS5837_I2C.cpp:175-176 | A polynomial has only one remainder of degree below 4 modulo x^4+x+1, so the specification of the check value is a single number |
| Crc4.PromRemainder | src/Lib/Peripheral/MS5837_I2C.cpp:160-177 | With word 7 zero, the top nibble of the final register is the remainder of (words 0..6)·x^12 modulo x^4+x+1 |
| Crc4.CRC4 | src/Lib/Peripheral/MS5837_I2C.cpp:154-177 | Clears the stored nibble and word 7 in place, changes nothing else, and returns the GF(2) remainder of the cleared image times x^12 modulo x^4+x+1 |
| PromCheck.CheckProm | src/Lib/Peripheral/MS5837_I2C.cpp:39-43 | Init accepts exactly when the stored nibble equals that remainder; the image keeps its other words |
| PromCheck.AcceptedIffDivides | src/Lib/Peripheral/MS5837_I2C.cpp:39-43 | An image is accepted exactly when x^4+x+1 divides its code word (data times x^12 plus stored nibble) |
| PromCheck.TwoPowers | src/Lib/Peripheral/MS5837_I2C.cpp:168 | x^i + x^j is divisible by x^4+x+1 exactly when 15 divides j - i (x has order 15) |
| PromCheck.CodeWordCyclic | src/Lib/Peripheral/MS5837_I2C.cpp:39-43 | The code word is, modulo x^4+x+1, the 112-bit image moved by twelve places: since x^120 is 1, the nibble in front continues the cycle of the data |
| PromCheck.ErrorDecides | src/Lib/Peripheral/MS5837_I2C.cpp:39-43 | Whether an accepted image is still accepted after a change, nibble included, depends on the change alone: exactly when x^4+x+1 divides it |
| PromCheck.BurstRejected | src/Lib/Peripheral/MS5837_I2C.cpp:39-43 | Every non-zero burst of at most four bits is rejected, wherever it starts in words 0..6, across the nibble boundary too |
| PromCheck.SingleBitRejected | src/Lib/Peripheral/MS5837_I2C.cpp:39-43 | A single flipped bit anywhere in words 0..6, stored nibble included, is rejected |
| PromCheck.DoubleBitExactly | src/Lib/Peripheral/MS5837_I2C.cpp:39-43 | Two flipped bits among all 112 are accepted exactly when their distance is a multiple of 15 |
| Compensation.TruncDiv | src/Lib/Peripheral/MS5837_I2C.cpp:120-143 | The C++ division: quotient toward zero, remainder smaller than the divisor |
| Compensation.GuardsInHundredths | src/Lib/Peripheral/MS5837_I2C.cpp:126-130 | In hundredths of a degree the truncating guards are: cold below 2000, very cold at or below -1600 (not below -1500) |
| Compensation.SecondOrder | src/Lib/Peripheral/MS5837_I2C.cpp:126-138 | The three regimes in 32- and 64-bit steps, proved free of overflow in the defined range; Ti and SENSi are the integer formulas, OFFi is its formula narrowed to 32 bits (`Datasheet.SecondOrderAccuracy` compares those formulas with the rational ones) |
| Compensation.CalculateOverflowsExactly | src/Lib/Peripheral/MS5837_I2C.cpp:126-138 | For every calibration and 24-bit reading: no product or sum of the second-order terms overflows if and only if the temperature is at least -18724 when cold and |dT| at most 32767 when warm; the stored terms lose no bits either if and only if, beyond that, a cold temperature is at least -16721 |
| Compensation.WarmLimit | src/Lib/Peripheral/MS5837_I2C.cpp:134-136 | Every warm reading above 22.56 degrees overflows: the 32-bit square of dT |
| Compensation.WarmOverflows | src/Lib/Peripheral/MS5837_I2C.cpp:134-136 | A calibration and a reading at 23.37 degrees on which the square of dT overflows |
| Compensation.ColdLosesBits | src/Lib/Peripheral/MS5837_I2C.cpp:130-132 | A calibration and a reading on which no arithmetic overflows but the stored OFFi is 2^32 too small |
| Compensation.Calculate | src/Lib/Peripheral/MS5837_I2C.cpp:107-152 | Wherever no signed arithmetic overflows, all intermediates stay inside their declared int32 and int64 types, the final narrowing of the pressure loses nothing, and the results are those of the formulas with OFFi as it is stored |
| Compensation.CompensatedInRange | src/Lib/Peripheral/MS5837_I2C.cpp:107-152 | Where the stored terms lose no bits either, those are the unbounded formulas |
| Compensation.PressureAccuracy | src/Lib/Peripheral/MS5837_I2C.cpp:120-143 | For the same SENSi and OFFi the integer pressure is within 1 + 10/8192 of the exact rational formula, all truncations together, for every calibration and reading |
| Compensation.PressureMonotone | src/Lib/Peripheral/MS5837_I2C.cpp:140-143 | For one temperature reading the pressure is non-decreasing in the raw reading D1 when SENS2 >= 0, and non-increasing when SENS2 <= 0 |
| Compensation.TemperatureMonotone | src/Lib/Peripheral/MS5837_I2C.cpp:120-149 | The reported temperature is non-decreasing in the raw reading D2 across the very cold, cold and warm regimes and the boundary at 2000, wherever no signed arithmetic overflows |
| Datasheet.SecondOrderAccuracy | src/Lib/Peripheral/MS5837_I2C.cpp:126-138 | For every dT and temperature t: SENSi is within one unit of 5(t-2000)²/8 (+4(t+1500)² when very cold), OFFi of 3(t-2000)²/2 (+7(t+1500)²) or (t-2000)²/16, Ti of 3dT²/2^33 or 2dT²/2^37 |
| Datasheet.FirstOrderAccuracy | src/Lib/Peripheral/MS5837_I2C.cpp:120-124 | SENS, OFF and the temperature are within one unit of their rational formulas, with every coefficient written out |
| Datasheet.CalculateAccuracy | src/Lib/Peripheral/MS5837_I2C.cpp:107-152 | For every calibration and 24-bit reading without signed overflow: the pressure is within 1 + 19/8192 units of the rational formula, first- and second-order terms included (524288 units lower where the stored OFFi loses bits); the temperature is within 0.02 degrees; the depth is (100000 p - 101300) / (9.80665 density) |
| Datasheet.SampleAccuracy | src/Lib/Peripheral/MS5837_I2C.cpp:88-90 | The same for a raw sample read from the bus, with the density 997 |
| StaticVector.BlocksAndTail | src/Lib/Math/TypeTraits.hpp:39-49 | Blocks of four and the tail cover a vector of any size once |
| StaticVector.MultiplyBy | src/Lib/Math/Static/Vector.hpp:130-150 | The blocked in-place product scales every element, for every size |
| StaticVector.AddTo | src/Lib/Math/Static/Vector.hpp:173-196 | The blocked in-place addition shifts every element, for every size |
| StaticVector.BlockMaxAbs | src/Lib/Math/Static/Vector.hpp:226-248 | Blocked lane maxima followed by the tail find the largest absolute value, for every size |
| StaticVector.MaxAbsIsMaximum | src/Lib/Math/Static/Vector.hpp:201-208 | That value bounds every component, is never negative and is attained by a component unless all are zero |
| StaticVector.Normalize | src/Lib/Math/Static/Vector.hpp:219-265 | The blocked float form computes the same vector as the scalar form, and leaves a zero vector alone for a positive amplitude |
| StaticVector.NormalizeScalar | src/Lib/Math/Static/Vector.hpp:198-217 | The element-by-element form computes the same function of the old contents |
| StaticVector.DotProduct | src/Lib/Math/Static/Vector.hpp:267-291 | Block sums plus tail give the full inner product, for every size |
| StaticVector.NormalizedExactly | src/Lib/Math/Static/Vector.hpp:250-264 | A vector that fits is unchanged; one that does not is scaled by one factor below 1 so that its largest component meets the amplitude exactly |
| StaticVector.NormalizedBound | src/Lib/Math/Static/Vector.hpp:250-264 | No component of the result exceeds the amplitude |
| StaticVector.NormalizedIdempotent | src/Lib/Math/Static/Vector.hpp:250-264 | Normalising twice is normalising once |
| StaticVector.NormalizedFactor | src/Lib/Math/Static/Vector.hpp:250-264 | The result is one factor in (0, 1] times the input, so zero components stay zero, and the factor is 1 unless some component then meets the amplitude |
| StaticMatrix.Multiply | src/Lib/Math/Static/Matrix.hpp:75-88 | The i-j-k triple loop accumulates the matrix product, for all dimensions |
| StaticMatrix.MultiplyVector | src/Lib/Math/Static/Matrix.hpp:186-198 | One inner product per row |
| StaticMatrix.ProductThenVector | src/Lib/Math/Static/Matrix.hpp:75-88 | (A·B)·v = A·(B·v) for all dimensions |
| StaticMatrix.VectorAlong | src/Lib/Math/Static/Matrix.hpp:186-198 | A vector along axis j goes to the j-th column times its length, for all dimensions |
| Ring.RingAdvances | src/Lib/Filters/MovingAverage/MovingAverage.hpp:16-20 | Overwriting the oldest slot of a ring turns its window over the history into the window over the history with the new value |
| MovingAverage.Filter.Apply | src/Lib/Filters/MovingAverage/MovingAverage.hpp:15-33 | After any number of calls the ring holds the last N inputs, zero-filled before warm-up, and the call returns their sum divided by N |
| MovingAverage.Filter.SumElements | src/Lib/Filters/MovingAverage/MovingAverage.hpp:22-30 | The pairwise loop with its tail adds up all elements for even and odd N |
| CircleMovingAverage.Filter.Store | src/Lib/Filters/CircleMovingAverage/CircleMovingAverage.hpp:15-20 | The cosine and sine of the angle replace the oldest pair; the ring holds the unit vectors of the last N angles |
| CircleMovingAverage.Filter.SumPairs | src/Lib/Filters/CircleMovingAverage/CircleMovingAverage.hpp:24-29 | The two-lane loop adds up all pairs |
| CircleMovingAverage.Filter.Apply | src/Lib/Filters/CircleMovingAverage/CircleMovingAverage.hpp:14-42 | After any number of calls the answer is the arc cosine of the mean cosine of the last N angles, zero-filled before warm-up, in the half plane of their mean sine, and 0 when that is zero; the argument of acos is in [-1, 1] |
| CircleMovingAverage.ReportIs | src/Lib/Filters/CircleMovingAverage/CircleMovingAverage.hpp:33-41 | Over every history: off the axis the answer is the one angle on the side of the mean vector whose cosine is the mean cosine; on the axis it is 0 |
| CircleMovingAverage.ReportPointsExactly | src/Lib/Filters/CircleMovingAverage/CircleMovingAverage.hpp:31-41 | Over every history: the answer points along the mean vector if and only if the ring is full of angles that all point the same way and are off the axis, or the mean vector lies on the y axis or on the positive x axis |
| CircleMovingAverage.MeanOnCircleExactly | src/Lib/Filters/CircleMovingAverage/CircleMovingAverage.hpp:24-31 | The mean vector has unit length if and only if the ring is full and its N angles differ by whole turns only |
| CircleMovingAverage.SumOnCircle | src/Lib/Filters/CircleMovingAverage/CircleMovingAverage.hpp:24-29 | Vectors of at most unit length add up to one of length n only if all n are the same unit vector (the equality case of the bound) |
| CircleMovingAverage.EarlyReport | src/Lib/Filters/CircleMovingAverage/CircleMovingAverage.hpp:24-41 | After k < N equal angles the cosine of the answer is k/N of the angle's own, and the direction is right if and only if the angle lies on the y axis or the positive x axis |
| CircleMovingAverage.OppositeAnglesReported | src/Lib/Filters/CircleMovingAverage/CircleMovingAverage.hpp:24-41 | When the last N angles alternate between a and -a the mean vector is (cos a, 0) and the answer 0, although the mean points along the half turn when cos a is negative |
| CircleMovingAverage.SumInDisc | src/Lib/Filters/CircleMovingAverage/CircleMovingAverage.hpp:24-29 | n vectors of at most unit length add up to one of length at most n (Cauchy-Schwarz induction) |
| CircleMovingAverage.MeanInDisc | src/Lib/Filters/CircleMovingAverage/CircleMovingAverage.hpp:31-39 | The mean of vectors in the unit disc lies in the closed unit disc |
| CircleMovingAverage.SteadyMean | src/Lib/Filters/CircleMovingAverage/CircleMovingAverage.hpp:24-31 | After N equal angles the mean is the unit vector of that angle |
| CircleMovingAverage.SteadyReport | src/Lib/Filters/CircleMovingAverage/CircleMovingAverage.hpp:24-41 | The answer to a steady angle is its representative in [0, 2 pi), and over exact reals 0 for the half turn itself; of sine, cosine and arc cosine only the laws in `Trigonometry` are used |
| CircleMovingAverage.SteadyAngleExactly | src/Lib/Filters/CircleMovingAverage/CircleMovingAverage.hpp:33-41 | For every angle, reported N times, over exact reals: the answer is that angle if and only if it lies in [0, 2 pi) and is not pi, and points the same way, whole turns aside, if and only if it is not an odd multiple of pi |
| CircleMovingAverage.NegativeAngleReported | src/Lib/Filters/CircleMovingAverage/CircleMovingAverage.hpp:36-38 | An angle between -pi and 0, such as a slight negative pitch, is reported one turn further on |
| Pid.PArray.Add | src/Robot/Features/Commands/PID.hpp:112-130 | Adds coefficient times error to each output lane |
| Pid.IArray.Add | src/Robot/Features/Commands/PID.hpp:151-183 | Accumulates coefficient·(dt·error) in the sums and adds the sums to the output |
| Pid.DArray.Add | src/Robot/Features/Commands/PID.hpp:204-239 | Refreshes the held slopes only when lane 2 did not fall by 1e-6, adds the held slopes to the output and remembers the errors |
| Pid.IntegralNext | src/Robot/Features/Commands/PID.hpp:151-183 | The closed-form integral gains i·dt·e with an update and returns to zero with a reset |
| Pid.DerivativeNext | src/Robot/Features/Commands/PID.hpp:216-224 | The closed-form derivative, the slope at the last refreshing step or zero, follows a refreshing call and is held through every other call, resets included |
| Pid.UpdateNext | src/Robot/Features/Commands/PID.hpp:250-261 | One update moves the closed forms exactly as the accumulators and the held values move, and the output is their sum |
| Pid.ResetNext | src/Robot/Features/Commands/PID.hpp:294-297 | A reset clears the integrals and the previous errors and keeps the held derivative |
| Pid.SteadyError | src/Robot/Features/Commands/PID.hpp:250-261 | After any history and a reset, the n-th answer to a steady error e is p·e + n·i·dt·e, plus d·e/dt (or the held derivative) in the first answer only |
| Pid.RisingError | src/Robot/Features/Commands/PID.hpp:250-261 | After any history and a reset, the n-th answer to errors v, 2v, ... is p·n·v + n(n+1)/2·i·dt·v + d·v/dt; when the error of lane 2 falls, all lanes keep the derivative from before the reset |
| Pid.PIDArray.Calculate | src/Robot/Features/Commands/PID.hpp:250-261 | Over any history of updates and resets each lane returns p·e plus the sum of i·dt·e since the last reset plus the derivative of the last refreshing step |
| Pid.PIDArray.Reset | src/Robot/Features/Commands/PID.hpp:294-297 | The state stays the closed forms of the history, now ending in a reset |
| RobotSettings.WriteValidate | src/Robot/Features/RobotSettings/RobotSettings.cpp:68-93 | Accepts exactly the messages with at most 4 hand axes, whole matrix rows, at most 12 motors and coefficients in [-100, 100]; otherwise reports the first failing check |
| RobotSettings.ParseSettings | src/Robot/Features/RobotSettings/RobotSettings.cpp:11-39 | All accesses are in bounds exactly for at most 6 hand coefficients, 72 thruster coefficients and at least 4 PID entries; then the row-major matrix, the hand and the regulator arrays carry the message, with zeros elsewhere |
| RobotSettings.ValidParsesExactly | src/Robot/Features/RobotSettings/RobotSettings.cpp:68-107 | An accepted message is parsed in bounds if and only if it has at least four PID entries |
| RobotSettings.ValidMayOverrun | src/Robot/Features/RobotSettings/RobotSettings.cpp:27-31 | A concrete accepted message whose PID entries the parser reads out of range |
| RobotSettings.ValidIsUsable | src/Robot/Features/RobotSettings/RobotSettings.cpp:11-39 | Settings parsed from an accepted message never have overlapping hand and thruster channels, and all matrix rows beyond the thrusters are zero |
| RobotSettings.UsableExactly | src/Robot/Features/RobotSettings/RobotSettings.cpp:11-66 | Settings parsed without validation, as at start-up, have disjoint channels and zero rows beyond the thrusters if and only if the message has at most 4 hand axes, at most 12 motors and zeros in an incomplete last row |
| RobotSettings.FileMayOverlap | src/Robot/Features/RobotSettings/RobotSettings.cpp:41-66 | A message that is parsed in bounds and puts a hand axis on the channel of a thruster |
| CommandsQueue.Queue.GetCommands | src/Robot/Features/Commands/CommandsCycle.hpp:29-38 | Over every interleaving and however often the 64-bit counter wraps: the answer is the last added command while fewer than 400 gets have happened since, and the neutral command after that |
| CommandsQueue.Queue.AddCommands | src/Robot/Features/Commands/CommandsCycle.hpp:40-44 | The history grows by the added command and the counter and stored command stay its closed forms |
| CommandsQueue.AnswersAfterAdd | src/Robot/Features/Commands/CommandsCycle.hpp:29-44 | Commands added at a position answer exactly the next 399 gets when nothing else is added; later gets answer neutral |
| CommandsQueue.AnswersBeforeAdd | src/Robot/Features/Commands/CommandsCycle.hpp:27-38 | Before any command is added every get answers neutral |
| Stabilization.MeasuredPitch | src/Robot/Features/Commands/Stabilization.hpp:92-99 | A y angle in [0, 360) is measured as the angle in [-90, 270) that points the same way; the other three values are taken over |
| Stabilization.FoldedInHalfTurn | src/Robot/Features/Commands/Stabilization.hpp:104-108 | A folded angle error lies within half a turn if and only if the error is within one and a half turns |
| Stabilization.FoldedIsDistance | src/Robot/Features/Commands/Stabilization.hpp:104-108 | The magnitude of a folded error is that of the error moved by some number of whole turns, and the least over all of them if and only if the error is within one and a half turns |
| Stabilization.FoldedSameWay | src/Robot/Features/Commands/Stabilization.hpp:104-108 | A folded error differs from the error by whole turns if and only if the error is at most 180 or a multiple of 180: larger errors are reflected |
| Stabilization.FoldedOppositeWay | src/Robot/Features/Commands/Stabilization.hpp:105-107 | An error of 270 degrees, a quarter turn back, is folded to a quarter turn forward |
| Stabilization.ErrorsExactly | src/Robot/Features/Commands/Stabilization.hpp:99-108 | Every error is target minus measurement, folded for the angles about x and z only; at the target all are zero, and raising a target about y or in depth by x raises that error by x |
| Attitude.SteadyAnglePublished | src/Lib/Peripheral/BNO055_I2C.cpp:128-140 | In degrees, over exact reals: a steady angle is published as its representative in [0, 360), and as 0 for 180 |
| Attitude.PitchMeasuredExactly | src/Robot/Features/Commands/Stabilization.hpp:92-99 | Through the sensor filter and the measurement of the stabilisation, over exact reals, a steady pitch comes out unchanged if and only if it is at least -90, below 270 and not 180 degrees |
| Attitude.OtherAxesMeasuredExactly | src/Robot/Features/Commands/Stabilization.hpp:92-99 | A steady angle about x or z comes out unchanged, over exact reals, if and only if it is at least 0, below 360 and not 180 degrees: negative ones are not moved back |
| Stabilization.FormMove | src/Robot/Features/Commands/Stabilization.hpp:113-124 | The moments are the negated outputs, the force is the depth output along the axes of the tilted robot; disabled axes contribute nothing (`Drives` with the factor 1) |
| Stabilization.CorrectionIsLimited | src/Robot/Features/Commands/Stabilization.hpp:113-129 | Every component of the correction lies in [-1, 1] and a disabled axis contributes 0 |
| Stabilization.CorrectionDrives | src/Robot/Features/Commands/Stabilization.hpp:113-129 | For every output, attitude and choice of axes there is one k in (0, 1], equal to 1 unless some component then has magnitude 1: each moment is -k times the output of its axis, the force has the size k times the depth output and the components of the source |
| Stabilization.LevelAndUpright | src/Robot/Features/Commands/Stabilization.hpp:115-119 | On a level robot the depth output pushes along z alone; with the pitch at a right angle along -x alone |
| Stabilization.DepthForceVerticalExactly | src/Robot/Features/Commands/Stabilization.hpp:115-119 | Turned back into the frame of the earth, the depth correction is vertical and k times the depth output if and only if that output is zero, the robot does not lean about x, or the cosines about x and y are equal |
| Stabilization.Stabilization.Calculate | src/Robot/Features/Commands/Stabilization.hpp:90-130 | The regulators see the folded errors, and the result is the limited correction for their outputs over the whole history, with the signs and axes of `Drives` |
| Stabilization.Stabilization.Reset | src/Robot/Features/Commands/Stabilization.hpp:144-146 | The regulators see a reset |
| CommandsCycle.FormMotorsStruct | src/Robot/Features/Commands/CommandsCycle.cpp:9-21 | Every PWM value is the ceiling of its channel converted to 16 bits: the ceiling itself in [0, 65535], an arbitrary 16-bit value beyond |
| CommandsCycle.MixMotors | src/Robot/Features/Commands/CommandsCycle.cpp:82-99 | The in-place pipeline computes, for each channel by index, hand axis 11-c from the back or the normalised matrix row, shifted by 100, times 10, rounded up and converted to 16 bits |
| CommandsCycle.ThrusterChannels | src/Robot/Features/Commands/CommandsCycle.cpp:82-96 | Channels 0..T-1 carry their own matrix row times the move times one common factor in (0, 1], and lie in [0, 2000]; the factor is 1 unless some thruster then runs at full power |
| CommandsCycle.IdleChannels | src/Robot/Features/Commands/CommandsCycle.cpp:82-96 | Channels T..11-H are exactly 1000 |
| CommandsCycle.HandChannels | src/Robot/Features/Commands/CommandsCycle.cpp:86-96 | Channel 11-i carries hand axis i, never a thruster, and lies in [0, 2000] if and only if the product is above -100.1 and at most 100 |
| CommandsCycle.FrameFromMessage | src/Robot/Features/Commands/CommandsCycle.cpp:82-99 | From a validated settings message to the frame: channel c of the first |thrusters|/6 carries row c of the message times the move times one common factor, in [0, 2000]; channel 11-i carries hand coefficient i, in [0, 2000] for a hand command in [-1, 1]; the rest are 1000 |
| CommandsCycle.AlongOneAxis | src/Robot/Features/Commands/CommandsCycle.cpp:82-84 | A move along axis j reaches thruster c through coefficient 6c+j of the settings message |
| CommandsCycle.FrameSent | src/Robot/Features/Commands/CommandsCycle.cpp:9-21 | The frame has the computed high values in order and the low values rounded up in order, wherever the conversion to 16 bits is defined |
| CommandsCycle.DepthAndPitchReplaced | src/Robot/Features/Commands/CommandsCycle.cpp:60-75 | With stabilisation on, commands that differ only in Vz and Wy give the same regulator event, the same move and the same frame |
| CommandsCycle.OthersAdded | src/Robot/Features/Commands/CommandsCycle.cpp:70-75 | With stabilisation on, adding x to a commanded Vx, Vy, Wx or Wz adds x to that component of the move and changes no other |
| CommandsCycle.DisabledAddsNothing | src/Robot/Features/Commands/CommandsCycle.cpp:60-75 | With all axes disabled, Vz and Wy are zero and the rest is as commanded |
| CommandsCycle.MoveFromMessage | src/Robot/Features/Commands/CommandsCycle.cpp:60-75 | From a settings message to the move, n passes after a reset: entry l of the message drives axis l, if its flag is set, with p·e + n·i·dt·e (and the derivative in the first pass), all scaled by one k in (0, 1], subtracted from Wx and Wz, replacing Wy and Vz, and added to Vx and Vy along the tilted robot |
| CommandsCycle.StoredExactly | src/Robot/Features/Commands/CommandsCycle.cpp:9-21 | The stored values are the ceilings, whatever the conversion does beyond its range, if and only if all of them fit 16 bits |
| CommandsCycle.FrameConvertibleExactly | src/Robot/Features/Commands/CommandsCycle.cpp:9-21 | The conversion to 16 bits is defined for the whole frame if and only if every hand product is above -100.1 and at most 6453.5 and every low value is above -1 and at most 65535; thruster channels are never the cause |
| CommandsCycle.NeutralStops | src/Robot/Features/Commands/CommandsCycle.cpp:82-99 | Neutral commands give 1000 on every high and 0 on every low channel, whatever the settings |
| CommandsCycle.CommandsCycle.Cycle | src/Robot/Features/Commands/CommandsCycle.cpp:44-102 | One pass of the loop: the queue sees one get, the regulators one update or one reset, and the motors get the mixed corrected move; from the 400th pass after the last command on, every frame is the all-stop frame |
| CommandsCycle.CommandsCycle.UpdateCommands | src/Robot/Features/Commands/CommandsCycle.hpp:67-69 | The queue sees one added command; no other part of the loop changes |
| CommandsCycle.CommandsCycle.AddStabilization | src/Robot/Features/Commands/CommandsCycle.cpp:60-75 | With the settings of this pass as coefficients the regulators see one update; the correction is added to Vx, Vy, Wx, Wz and replaces Vz, Wy (laws: `CommandsCycle.DepthAndPitchReplaced`, `CommandsCycle.OthersAdded`) |
| Ms5837.ResumesArm | src/Lib/Peripheral/MS5837_I2C.cpp:14-101 | Every resume of either coroutine reaches a co_await after at most 14 or 3 accesses and asks for a delay that arms the timer |
| Ms5837.InitPreserves | src/Lib/Peripheral/MS5837_I2C.cpp:14-49 | A resume of Init keeps every raw sample justified, leaves ReadData where it is, and yields true only with a complete initialisation at the end of the trace |
| Ms5837.InitCompletes | src/Lib/Peripheral/MS5837_I2C.cpp:20-48 | When Init yields, the last 15 accesses are an acknowledged reset and the seven PROM words in order, none of them zero, with a matching check nibble; the calibration is those words |
| Ms5837.ReadPreserves | src/Lib/Peripheral/MS5837_I2C.cpp:51-101 | ReadData keeps every raw sample justified: one undivided conversion pass, after an initialisation that no failed access has followed; a failure yields false and returns to the first co_await |
| Ms5837.ReadRecorded | src/Lib/Peripheral/MS5837_I2C.cpp:90-96 | The filters have been fed exactly the raw samples of the trace, and each publication is their answer to those up to and including its own |
| Ms5837.SameInitialisation | src/Lib/Peripheral/MS5837_I2C.cpp:14-101 | Two samples taken since one initialisation rely on that same one and carry the same calibration words |
| Ms5837.FailureForcesInit | src/Lib/Peripheral/MS5837_I2C.cpp:51-101 | A failed sampling access lies before the whole initialisation that a later sample relies on |
| Ms5837.DigitsRead | src/Lib/Peripheral/MS5837_I2C.cpp:63-86 | The three bytes are the base-256 digits of the reading, most significant first, for every 24-bit value |
| Ms5837.JustifiedAccesses | src/Lib/Peripheral/MS5837_I2C.cpp:55-86 | Behind a justified sample: 0x4A, 0x00, three bytes, 0x5A, 0x00, three bytes, all acknowledged, and the bytes are the digits of d1 and d2 |
| Ms5837.CalibrationAccesses | src/Lib/Peripheral/MS5837_I2C.cpp:19-40 | A complete initialisation is 0x1E, then 0xA0 + 2n and two bytes for n in 0..6; calibration word n is those bytes, most significant first, without the upper four bits of word 0 |
| Ms5837.InitAcceptsExactly | src/Lib/Peripheral/MS5837_I2C.cpp:14-46 | Init yields true if and only if no word came back as two zero bytes and the check nibble matches; the PROM is read if and only if the reset was acknowledged |
| Ms5837.ReadBreaksExactly | src/Lib/Peripheral/MS5837_I2C.cpp:51-101 | A pass breaks off if and only if an access was not acknowledged, goes to the next co_await otherwise, and publishes if and only if the last reading arrived |
| Bno055.ResumesArm | src/Lib/Peripheral/BNO055_I2C.cpp:30-151 | Every resume of either coroutine reaches a co_await after at most 3 or 2 accesses and asks for a delay that arms the timer |
| Bno055.InitAdvances | src/Lib/Peripheral/BNO055_I2C.cpp:30-84 | At each suspension point the trace ends with exactly the accesses of one initialisation so far, in order: identity, CONFIG mode, reset, failed polls (at most 100), identity, normal power, page 0, trigger 0, requested mode |
| Bno055.InitPreserves | src/Lib/Peripheral/BNO055_I2C.cpp:30-84 | A resume of Init keeps every raw sample justified, leaves ReadData where it is, and yields true only when the trace ends with a whole initialisation, every write acknowledged |
| Bno055.ReadPreserves | src/Lib/Peripheral/BNO055_I2C.cpp:86-151 | ReadData keeps every raw sample justified: four acknowledged accesses in a row, from which its status, acceleration, angle and temperature bytes come, after an initialisation that no failed access has followed |
| Bno055.ReadRecorded | src/Lib/Peripheral/BNO055_I2C.cpp:138-146 | The filters have been fed exactly the raw samples of the trace, and each publication is their answer to those up to and including its own |
| Bno055.FailureForcesInit | src/Lib/Peripheral/BNO055_I2C.cpp:86-151 | A failed sampling access lies before the whole initialisation that a later sample relies on |
| Bno055.JustifiedAccesses | src/Lib/Peripheral/BNO055_I2C.cpp:92-136 | Behind a justified sample: registers 0x35, 0x28 (six bytes), 0x1A (six bytes) and 0x34, all read successfully, and the sample has those bytes |
| Bno055.ConfigurationAccesses | src/Lib/Peripheral/BNO055_I2C.cpp:35-78 | A complete initialisation in register numbers and values: identity 0xA0, configuration mode, reset 0x20, at most 100 failed polls, identity, power mode 0, page 0, trigger 0, requested mode |
| Bno055.InitRestartsExactly | src/Lib/Peripheral/BNO055_I2C.cpp:30-84 | Init starts over if and only if a write was refused, the first identity was refused or wrong, or the poll after 100 failed ones is wrong too |
| Bno055.ReadBreaksExactly | src/Lib/Peripheral/BNO055_I2C.cpp:86-151 | A pass breaks off if and only if its access was not acknowledged, goes to the next co_await otherwise, and publishes if and only if the temperature arrived |
| PressureValues.FilteredIs | src/Lib/Peripheral/MS5837_I2C.cpp:90-96 | What is published is, value by value, the mean of the last two compensated samples; the first publication averages with zeros |
| PressureValues.FilteredSince | src/Lib/Peripheral/MS5837_I2C.cpp:92-94 | With two samples taken since some point, nothing taken before it matters |
| PressureValues.FirstSinceExactly | src/Lib/Peripheral/MS5837_I2C.cpp:90-94 | With one sample since some point, what is published is that sample's own first answer if and only if nothing was taken before or the previous compensated sample was zero in all three values |
| PressureValues.Filters.Apply | src/Lib/Peripheral/MS5837_I2C.cpp:90-94 | Compensation and the three ring filters, fed one more sample, answer exactly that |
| OrientationValues.FilteredSince | src/Lib/Peripheral/BNO055_I2C.cpp:138-144 | With twenty samples taken since some point, nothing taken before it matters |
| OrientationValues.AccelerationSinceExactly | src/Lib/Peripheral/BNO055_I2C.cpp:138-144 | With at most ten samples since some point, the published acceleration is that of those samples alone if and only if the older ones still in the ring add up to zero |
| OrientationValues.Filters.Apply | src/Lib/Peripheral/BNO055_I2C.cpp:96-144 | The six ring filters, fed the unpacked bytes of one more sample, answer for each angle the arc cosine of the mean cosine of the last 10 or 20 in the half plane of the mean sine (what that is: `CircleMovingAverage.ReportIs`) and for each acceleration the mean of the last 10 values; accuracy and temperature are those of the sample (from the device's registers: `DeviceWords.StillDevicePublished`) |
| DeviceWords.WordsReturn | src/Lib/Peripheral/BNO055_I2C.cpp:104-127 | For every 16-bit value of the nine registers in little-endian two's complement: accelerations are hundredths in the order x, y, z; the angle about z is the heading, that about y the negated roll, that about x the pitch, in sixteenths of a degree |
| DeviceWords.StatusReturns | src/Lib/Peripheral/BNO055_I2C.cpp:96-100 | The four two-bit status fields come back in order, the first from the top bits |
| DeviceWords.CelsiusReturns | src/Lib/Peripheral/BNO055_I2C.cpp:131-136 | Every temperature from -128 to 127 comes back from its byte |
| DeviceWords.StillDevicePublished | src/Lib/Peripheral/BNO055_I2C.cpp:96-146 | After 20 samples of a device that holds still, whatever came before: its accelerations, its angles within one turn (over exact reals, 0 for 180) on their axes, the status fields and the temperature |
| DeviceWords.StillDeviceEarly | src/Lib/Peripheral/BNO055_I2C.cpp:138-144 | After only k samples of it: k/10 of the accelerations, and angles whose cosine is k/10 (about z k/20) of their own |
| DeviceWords.StillDeviceInRun | src/Lib/Peripheral/BNO055_I2C.cpp:86-151 | In every run, if the last 20 samples were read from a device that holds still, the publication is its motion |
| Publications.LastTakenSinceExactly | src/Lib/Filters/MovingAverage/MovingAverage.hpp:15-33 | The last n samples behind a publication were all taken since a position if and only if at least n publications have followed it |
| PressureSensor.MS5837_I2C.ReadProm | src/Lib/Peripheral/MS5837_I2C.cpp:24-37 | The PROM loop stops at the first word of two zero bytes, having stored the words before it |
| PressureSensor.MS5837_I2C.LoadCalibration | src/Lib/Peripheral/MS5837_I2C.cpp:24-43 | The PROM loop and its check leave the words read, masked once all seven are there, and accept exactly a complete image with a matching nibble |
| PressureSensor.MS5837_I2C.ResumeInit | src/Lib/Peripheral/MS5837_I2C.cpp:14-49 | The field updates of one resume of Init are a step of the machine, accesses, delay and yielded flag included |
| PressureSensor.MS5837_I2C.ResumeRead | src/Lib/Peripheral/MS5837_I2C.cpp:51-101 | The field updates of one resume of ReadData, filters and published data included, are a step of the machine |
| OrientationSensor.BNO055_I2C.ResumeInit | src/Lib/Peripheral/BNO055_I2C.cpp:30-84 | The field updates of one resume of Init are a step of the machine |
| OrientationSensor.BNO055_I2C.ResumeRead | src/Lib/Peripheral/BNO055_I2C.cpp:86-151 | The field updates of one resume of ReadData, filters and published data included, are a step of the machine |
| SensorMachine.ReadStarts | src/Lib/Peripheral/PeripheralHandler/Coruitine.hpp:25-43 | The first resume of ReadData reaches only its first co_await: no access, no flag |
| SensorMachine.ResumesArm | src/Lib/Peripheral/SensorHandler.cpp:24-32 | Every delay of both sensors is strictly between 0 and one second |
| SensorMachine.DispatchValid | src/Lib/Peripheral/SensorHandler.cpp:119-133 | One dispatch keeps the invariant that relates both program counters, both flags and the state, and the first dispatch always demotes the sensor to Offline |
| SensorMachine.RunValid | src/Lib/Peripheral/SensorHandler.cpp:119-133 | The invariant holds after every run of expiries and dispatches |
| SensorMachine.RunSafe | src/Lib/Peripheral/SensorHandler.cpp:59-67 | In every run: Offline means ReadData is at its first co_await; Online and dispatched means Init is at its first co_await; the timer is armed or has an undelivered expiry; every raw sample is justified; everything published is what the filters made of the raw samples up to then |
| SensorMachine.PressureAfterFailure | src/Lib/Peripheral/MS5837_I2C.cpp:14-101 | In every run, between a failed MS5837 sampling access and a later raw sample lies a complete initialisation with matching CRC4, and the sample carries its calibration words |
| SensorMachine.OrientationAfterFailure | src/Lib/Peripheral/BNO055_I2C.cpp:30-151 | In every run, between a failed BNO055 sampling access and a later raw sample lies one complete ordered initialisation |
| Waits.PressureWaits | src/Lib/Peripheral/MS5837_I2C.cpp:51-81 | In every run of an MS5837 the timer runs for 20 ms after an acknowledged conversion command and for 10 ms after anything else |
| Waits.OrientationWaits | src/Lib/Peripheral/BNO055_I2C.cpp:30-151 | In every run of a BNO055 the timer runs for what the suspended coroutine waits for: 50 ms after the reset, 30 ms after a failed poll, 50 ms before power, 10 ms before the page, 30 ms before the mode, 100 ms to settle, 2.5 ms between readings |
| Published.PressurePublished | src/Lib/Peripheral/MS5837_I2C.cpp:14-101 | In every run, the data set at any publication are the means of the last two compensated raw samples; all samples since the last initialisation carry its checked words; both samples were taken since it if and only if at least two publications have followed it, and then nothing older matters |
| Published.OrientationPublished | src/Lib/Peripheral/BNO055_I2C.cpp:30-151 | In every run, the data set at any publication are the filters' answer to the raw samples so far; the last 10 (20) were all taken since the last initialisation if and only if at least 10 (20) publications have followed it, and from then on everything but the angle about z (everything) is free of older samples |
| Mixing.FirstAfterFailure | src/Lib/Peripheral/MS5837_I2C.cpp:14-101 | In every run: the first publication after a failed access is the mean of the sample before the failure and the one after it, with a whole initialisation between them, and (if compensating the earlier one does not overflow) never what the samples since the failure would give |
| Mixing.MixedRun | src/Lib/Peripheral/MS5837_I2C.cpp:14-101 | Thirteen dispatches take any unstarted MS5837 through sampling, a failed access, a second initialisation with a matching PROM and a publication that mixes both |
| Recovery.HealthyDispatch | src/Lib/Peripheral/SensorHandler.cpp:119-133 | With a healthy device each dispatch publishes or comes one step nearer to publishing |
| Recovery.Progress | src/Lib/Peripheral/SensorHandler.cpp:119-133 | After j healthy dispatches a new sample is out or the rank has dropped by exactly j |
| Recovery.Recovers | src/Lib/Peripheral/SensorHandler.cpp:119-133 | From every reachable state, 7 dispatches of a healthy MS5837 or 12 of a healthy BNO055 publish a new sample |
| SensorSchedule.BatchPointwise | src/Lib/Peripheral/SensorHandler.cpp:103-137 | In a batch with distinct timers each delivered registered sensor is dispatched once and all others are unchanged |
| SensorSchedule.BatchOrderIrrelevant | src/Lib/Peripheral/SensorHandler.cpp:103-137 | The state after a batch does not depend on the order of its events |
| SensorSchedule.EachSensorAlone | src/Lib/Peripheral/SensorHandler.cpp:77-137 | Whatever is registered, expires or is served, each sensor is in a state that a run of its own reaches, and timers stay distinct |
| SensorSchedule.EverySensorValid | src/Lib/Peripheral/SensorHandler.cpp:77-137 | In every reachable state of the handler every sensor satisfies the invariant of one sensor |
| SensorHandler.SensorContext.constructor | src/Lib/Peripheral/SensorHandler.cpp:59-67 | A new context is Online with both flags false and its timer armed with 10 ms |
| SensorHandler.SensorContext.ResumeRead | src/Lib/Peripheral/PeripheralHandler/Coruitine.hpp:40-43 | The resume is performed first, then the flag is handed over in exchange for true |
| SensorHandler.SensorContext.ResumeInit | src/Lib/Peripheral/PeripheralHandler/Coruitine.hpp:40-43 | The resume is performed first, then the flag is handed over in exchange for false |
| SensorHandler.SensorContext.Serve | src/Lib/Peripheral/SensorHandler.cpp:119-133 | The switch over Online and Offline is the dispatch step of the machine |
| SensorHandler.SensorHandler.RegisterSensor | src/Lib/Peripheral/SensorHandler.cpp:77-89 | A tracked sensor is added at the end; an untracked one is taken out again and nothing else changes |
| SensorHandler.SensorHandler.Find | src/Lib/Peripheral/SensorHandler.cpp:107-109 | The linear search finds the first context with the descriptor, or the end |
| SensorHandler.SensorHandler.ServeEvent | src/Lib/Peripheral/SensorHandler.cpp:105-133 | One event dispatches its sensor only; an unknown descriptor changes nothing |
| SensorHandler.SensorHandler.ServeBatch | src/Lib/Peripheral/SensorHandler.cpp:103-134 | The loop over the delivered descriptors is the batch step of the model |
| Wire.HeaderRoundTrip | src/Lib/TcpSession/Packet.hpp:36-40 | Kind, signed endpoint and length of an encoded request decode back, and body and rest follow |
| Wire.RequestLayout | src/Lib/TcpSession/Packet.hpp:36-40 | Kind, endpoint and body size in that order, eight bytes each, least significant first, the endpoint in two's complement, then the body |
| Wire.ResponsesRoundTrip | src/Lib/TcpSession/TcpSession.cpp:63-71 | A client that reads a header and then Length bytes recovers exactly the responses that were sent, whatever their bodies contain |
| Wire.ResponseLayout | src/Lib/TcpSession/Packet.hpp:71-84 | Code (0 to 6 in the order of the enumeration), endpoint and size in the same layout, then the body |
| TcpSession.SessionFollowsRequests | src/Lib/TcpSession/TcpSession.cpp:86-150 | On a stream of encoded requests of at most 1024 bytes each the loop answers those requests, in order |
| TcpSession.ReadsFront | src/Lib/TcpSession/TcpSession.cpp:41-60 | In front of an encoded request the loop reads that request and stops behind its body if it is within 1024 bytes; otherwise it stops behind the header and the body is left in the stream |
| TcpSession.RecoveredExactly | src/Lib/TcpSession/TcpSession.cpp:41-60 | Requests are recovered from their encoding if and only if every body has at most 1024 bytes |
| TcpSession.OneResponseEach | src/Lib/TcpSession/TcpSession.cpp:86-150 | The i-th response answers the i-th request in the state its predecessors left; only a request that closes the connection gets none, and nothing after it is answered |
| TcpSession.ClientReadsOneEach | src/Lib/TcpSession/TcpSession.cpp:86-150 | From bytes to bytes: if no service closes the connection or throws a text longer than the length field holds, the client reads back exactly one response per request |
| TcpSession.AnswerRepresentable | src/Lib/TcpSession/TcpSession.cpp:86-142 | The size of every response body fits its 64-bit length field: a text, nothing, or data compressed within the bound |
| TcpSession.AnswersArrive | src/Lib/TcpSession/TcpSession.cpp:104-117 | A read response has the uncompressed size as its endpoint and a body that decompresses to what the service returned, or reports an overflow after the service has acted |
| TcpSession.PayloadsArrive | src/Lib/TcpSession/TcpSession.cpp:98-117 | A write-read payload reaches the service as the client compressed it, and the response is as for a read |
| TcpSession.WritesArrive | src/Lib/TcpSession/TcpSession.cpp:175-184 | A write payload reaches the service as the client compressed it, an empty one if the service validates itself, and the client gets NoContent with the endpoint it named |
| TcpSession.RefusedExactly | src/Lib/TcpSession/TcpSession.cpp:98-148 | A request is refused without touching any service if and only if a write payload does not fit behind its frame, the endpoint or kind is unknown, or the payload is empty and the service leaves the check to the default; each case has its code and text, and otherwise the service gets exactly the action asked for and its exception is answered as caught |
| TcpSession.TooLongAnswered | src/Lib/TcpSession/TcpSession.cpp:49-129 | A longer request body, and an answer that may not fit compressed, are answered by an overflow |
| TcpSession.ConnectionEnds | src/Lib/TcpSession/TcpSession.cpp:130-148 | A timeout closes the connection quietly; any other failure, and the end of the stream, tells the services |
| TcpSession.Buffer.Decompress | src/Lib/TcpSession/BufferType.hpp:50-62 | For frames that decompress to the size they announce: the view starts behind the frame, stays inside the buffer, holds the decompressed bytes and leaves the frame intact; refused exactly when the frame announces no size or one that does not fit |
| TcpSession.Buffer.Compress | src/Lib/TcpSession/BufferType.hpp:64-72 | The compressed bytes are at the front of the buffer; refused exactly when the bound exceeds the capacity |
| TcpSession.HandleRequest | src/Lib/TcpSession/TcpSession.cpp:88-148 | One turn of the loop with the one shared buffer answers as the buffer-free specification does (its laws: `TcpSession.RefusedExactly`, `TcpSession.WritesArrive`), because the view is consumed before it is overwritten; frames that announce a size and fail to decompress are excluded |
| TcpSession.Serve | src/Lib/TcpSession/TcpSession.cpp:75-151 | For every byte stream, and a client that takes any number of responses before a write fails, the connection loop sends exactly the responses of the specification, leaves its state and ends as it does; frames that announce a size and fail to decompress are excluded |
| TcpSession.WritesCutSession | src/Lib/TcpSession/TcpSession.cpp:82-150 | A client that goes away has seen exactly the first responses of the session, the request behind the next one has been served, and the services are told that the connection is lost if and only if that response is not an error report, whose failed write leaves the accept loop |

## Left out

- Floating point: `float` and `double` are reals; rounding, NaN and infinities are not modelled. The quotient
  amplitude / 0 of a zero vector, +inf in the code, is modelled as "leave the vector alone".
- StaticVector.Normalize: a zero vector with an amplitude that is not positive is excluded, because the code then multiplies by NaN.
- Compensation.Calculate: is specified only where no signed arithmetic overflows, because the result is undefined elsewhere; a fluid density of zero is excluded because it divides by it.
- CircleMovingAverage.SteadyReport: the answer 0 for a steady half turn holds for exact reals only; pi is no double, and the nearest double, just below it, has a positive sine and is answered by itself.
- CircleMovingAverage.SteadyAngleExactly: excludes pi and its odd multiples, which no double is, for the same reason.
- DeviceWords.StillDevicePublished: publishes 0 for a steady 180 degrees for exact reals only.
- Attitude.SteadyAnglePublished: the value 0 at 180 degrees is the same exact-real boundary; in doubles a steady 180 degrees is published as 180.
- Attitude.PitchMeasuredExactly: excludes 180 degrees for exact reals only.
- Attitude.OtherAxesMeasuredExactly: excludes 180 degrees for exact reals only.
- PressureValues.Filters.Apply: the fluid density is the constant 997, because nothing calls `SetFluidDensity`; where the compensation overflows, its result is an arbitrary function of the sample.
- RobotSettings.ParseSettings: an access outside an array, undefined in C++, is reported as an error.
- CommandsCycle.FormMotorsStruct: beyond [0, 65535], where the conversion to 16 bits is undefined, the stored value is an arbitrary function of the ceiling.
- CommandsCycle.CommandsCycle.Cycle: requires dt > 0; the timer that measures dt is not modelled.
- SensorHandler.SensorHandler.RegisterSensor: runs atomically with the event loop, and a new timer's descriptor is not one in use; a timer that could not be created is one that epoll does not track, and setting a timer to a delay below a second does not fail.
- TcpSession.PayloadsArrive: compression is an abstract inverse pair.
- TcpSession.Buffer.Decompress: a frame that announces a size and fails to decompress to it is excluded; the code turns the error code into the size of a view that leaves the buffer.
- TcpSession.HandleRequest: excludes those frames too.
- TcpSession.Serve: covers one connection, not accepting the next one; a write succeeds as a whole or fails as a whole; frames that fail to decompress are excluded.
- Threads and locks: every locked method is one atomic step.
- Bus, SPI, UART, sockets, epoll and timers of the operating system: oracles and flags, as described above.
- `SetSettings` and `GetSettings`: a locked assignment and a locked copy.
- Protobuf parsing and the settings file: settings messages are lists of numbers.
- PIDArray tails for sizes not divisible by four, in-place matrix scaling tails, the dynamic matrix and vector, ADS1115, BMP280, angle and depth stabilisation: no caller reaches them.
- Video, logging, start settings and the SPI frame layout: plumbing that would add only easy members.
