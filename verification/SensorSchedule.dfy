/** All registered sensors together: registration, and the batches of timer expiries that epoll delivers. */
module SensorSchedule {
  import opened Bus
  import opened SensorMachine

  /** What the bus answers to each timer's sensor when that timer is served. */
  type BatchAnswers = nat -> Answers

  ghost predicate Shaped(contexts: seq<Context>) {
    forall i :: 0 <= i < |contexts| ==> contexts[i].sensor.Shaped()
  }

  ghost predicate DistinctTimers(contexts: seq<Context>) {
    forall i, j :: 0 <= i < j < |contexts| ==> contexts[i].fd != contexts[j].fd
  }

  /** The first sensor whose timer has this descriptor; the length when there is none. */
  function IndexOf(contexts: seq<Context>, fd: nat): (i: nat)
    ensures i <= |contexts|
    ensures i < |contexts| ==> contexts[i].fd == fd
    ensures forall j :: 0 <= j < i ==> contexts[j].fd != fd
  {
    if contexts == [] then 0
    else
      var i := IndexOf(contexts[..|contexts| - 1], fd);
      if i < |contexts| - 1 || contexts[i].fd == fd then i else |contexts|
  }

  /** One event of a batch: its sensor is dispatched; an unknown descriptor is ignored. */
  ghost function HandleEvent(contexts: seq<Context>, fd: nat, bus: Answers): (r: seq<Context>)
    requires Shaped(contexts)
    ensures Shaped(r) && |r| == |contexts| && forall i :: 0 <= i < |r| ==> r[i].fd == contexts[i].fd
  {
    var i := IndexOf(contexts, fd);
    if i == |contexts| then contexts else contexts[i := Dispatch(contexts[i], bus)]
  }

  ghost function HandleBatch(contexts: seq<Context>, fds: seq<nat>, answers: BatchAnswers): (r: seq<Context>)
    requires Shaped(contexts)
    ensures Shaped(r) && |r| == |contexts| && forall i :: 0 <= i < |r| ==> r[i].fd == contexts[i].fd
  {
    if fds == [] then contexts
    else
      var last := |fds| - 1;
      HandleEvent(HandleBatch(contexts, fds[..last], answers), fds[last], answers(fds[last]))
  }

  predicate NoRepeats(fds: seq<nat>) {
    forall i, j :: 0 <= i < j < |fds| ==> fds[i] != fds[j]
  }

  /** Each delivered registered sensor is stepped exactly once, all others not at all. */
  lemma {:induction false} BatchPointwise(contexts: seq<Context>, fds: seq<nat>, answers: BatchAnswers)
    requires Shaped(contexts) && DistinctTimers(contexts) && NoRepeats(fds)
    ensures forall i :: 0 <= i < |contexts| ==>
      HandleBatch(contexts, fds, answers)[i]
        == if contexts[i].fd in fds then Dispatch(contexts[i], answers(contexts[i].fd)) else contexts[i]
  {
    hide Dispatch;
    if fds == [] {
    } else {
      var last := |fds| - 1;
      assert fds == fds[..last] + [fds[last]];
      BatchPointwise(contexts, fds[..last], answers);
    }
  }

  /** The order in which epoll lists the events of a batch does not matter. */
  lemma BatchOrderIrrelevant(contexts: seq<Context>, fds: seq<nat>, fds': seq<nat>, answers: BatchAnswers)
    requires Shaped(contexts) && DistinctTimers(contexts) && NoRepeats(fds) && NoRepeats(fds')
    requires forall fd :: fd in fds <==> fd in fds'
    ensures HandleBatch(contexts, fds, answers) == HandleBatch(contexts, fds', answers)
  {
    BatchPointwise(contexts, fds, answers);
    BatchPointwise(contexts, fds', answers);
    hide Dispatch, HandleBatch;
    var r, r' := HandleBatch(contexts, fds, answers), HandleBatch(contexts, fds', answers);
    forall i | 0 <= i < |contexts|
      ensures r[i] == r'[i]
    {
    }
  }

  // ---------------------------------------------------------------- runs of the handler

  /** `tracked` is whether epoll accepted the timer. */
  datatype HandlerStep =
    | Register(fd: nat, sensor: SensorState, tracked: bool)
    | Elapse(fd: nat)
    | Batch(fds: seq<nat>, answers: BatchAnswers)

  /** A new timer gets a descriptor that no other has; sensors are registered as they are made. */
  ghost predicate Possible(contexts: seq<Context>, step: HandlerStep) {
    match step
    case Register(fd, sensor, _) => IndexOf(contexts, fd) == |contexts| && sensor.Shaped() && sensor.Unstarted()
    case Elapse(_) => true
    case Batch(fds, _) => NoRepeats(fds)
  }

  /** A sensor that epoll does not track is removed again. */
  ghost function AfterRegister(contexts: seq<Context>, fd: nat, sensor: SensorState, tracked: bool): seq<Context> {
    if tracked then contexts + [Registered(fd, sensor)] else contexts
  }

  ghost function HandlerStepped(contexts: seq<Context>, step: HandlerStep): (r: seq<Context>)
    requires Shaped(contexts) && Possible(contexts, step)
    ensures Shaped(r)
  {
    match step
    case Register(fd, sensor, tracked) => AfterRegister(contexts, fd, sensor, tracked)
    case Elapse(fd) =>
      var i := IndexOf(contexts, fd);
      if i == |contexts| then contexts else contexts[i := Expire(contexts[i])]
    case Batch(fds, answers) => HandleBatch(contexts, fds, answers)
  }

  /** The states a handler goes through, one after each step, starting with no sensors. */
  ghost predicate HandlerRun(states: seq<seq<Context>>, steps: seq<HandlerStep>) {
    && |states| == |steps| + 1
    && states[0] == []
    && forall n :: 0 <= n < |steps| ==>
         Shaped(states[n]) && Possible(states[n], steps[n]) && states[n + 1] == HandlerStepped(states[n], steps[n])
  }

  /** This sensor's own history: registered unstarted, then expiries and dispatches of its own timer. */
  ghost predicate Reached(c: Context) {
    exists sensor: SensorState, steps: seq<Step> ::
      sensor.Shaped() && sensor.Unstarted() && c == Run(Registered(c.fd, sensor), steps)
  }

  lemma RegisteredReached(fd: nat, sensor: SensorState)
    requires sensor.Shaped() && sensor.Unstarted()
    ensures Reached(Registered(fd, sensor))
  {
    assert Registered(fd, sensor) == Run(Registered(fd, sensor), []);
  }

  lemma SteppedReached(c: Context, step: Step)
    requires Reached(c) && c.sensor.Shaped()
    ensures Reached(Stepped(c, step))
  {
    var sensor: SensorState, steps: seq<Step> :|
      sensor.Shaped() && sensor.Unstarted() && c == Run(Registered(c.fd, sensor), steps);
    assert (steps + [step])[..|steps|] == steps;
    hide Stepped, Registered;
    assert Stepped(c, step) == Run(Registered(c.fd, sensor), steps + [step]);
  }

  ghost predicate AllReached(contexts: seq<Context>) {
    DistinctTimers(contexts) && forall i :: 0 <= i < |contexts| ==> Reached(contexts[i])
  }

  lemma StepReached(contexts: seq<Context>, step: HandlerStep)
    requires Shaped(contexts) && Possible(contexts, step) && AllReached(contexts)
    ensures AllReached(HandlerStepped(contexts, step))
  {
    hide Reached, Dispatch;
    match step
    case Register(fd, sensor, tracked) =>
      RegisteredReached(fd, sensor);
    case Elapse(fd) =>
      var i := IndexOf(contexts, fd);
      if i < |contexts| {
        SteppedReached(contexts[i], TimerExpires);
      }
    case Batch(fds, answers) =>
      BatchPointwise(contexts, fds, answers);
      hide HandleBatch;
      forall i | 0 <= i < |contexts|
        ensures Reached(HandleBatch(contexts, fds, answers)[i])
      {
        SteppedReached(contexts[i], Served(answers(contexts[i].fd)));
      }
  }

  /** Sensors do not disturb each other: whatever is registered, expires or is served, in any order, each sensor
      is in a state that a run of its own reaches. */
  lemma {:induction false} EachSensorAlone(states: seq<seq<Context>>, steps: seq<HandlerStep>, n: nat)
    requires HandlerRun(states, steps) && n < |states|
    ensures AllReached(states[n])
    decreases n
  {
    if n == 0 {
    } else {
      EachSensorAlone(states, steps, n - 1);
      hide AllReached, HandlerStepped, Possible, Shaped;
      StepReached(states[n - 1], steps[n - 1]);
    }
  }

  /** In every reachable state of the handler, every sensor satisfies the invariant of one sensor. */
  lemma EverySensorValid(states: seq<seq<Context>>, steps: seq<HandlerStep>, n: nat, i: nat)
    requires HandlerRun(states, steps) && n < |states| && i < |states[n]|
    ensures Valid(states[n][i])
  {
    EachSensorAlone(states, steps, n);
    var c := states[n][i];
    hide HandlerRun, Valid, Registered;
    assert Reached(c);
    var sensor: SensorState, own: seq<Step> :|
      sensor.Shaped() && sensor.Unstarted() && c == Run(Registered(c.fd, sensor), own);
    RegisteredValid(c.fd, sensor);
    RunValid(Registered(c.fd, sensor), own);
  }
}
