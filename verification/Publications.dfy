/** The raw samples in a trace, and the data published for each of them. */
module Publications {
  import opened Bus

  /** Where something was published, in order. */
  function Positions(trace: seq<Event>): (p: seq<nat>)
    ensures forall j :: 0 <= j < |p| ==> p[j] < |trace| && trace[p[j]].Publish?
  {
    if trace == [] then []
    else
      var last := |trace| - 1;
      Positions(trace[..last]) + (if trace[last].Publish? then [last] else [])
  }

  /** The raw samples taken, in order. */
  function SamplesOf(trace: seq<Event>): (samples: seq<Sample>) {
    if trace == [] then []
    else
      var last := |trace| - 1;
      SamplesOf(trace[..last]) + (if trace[last].Publish? then [trace[last].sample] else [])
  }

  /** The j-th sample is the one published at the j-th position. */
  lemma {:induction false} SamplesAt(trace: seq<Event>)
    ensures |SamplesOf(trace)| == |Positions(trace)|
    ensures forall j :: 0 <= j < |Positions(trace)| ==> SamplesOf(trace)[j] == trace[Positions(trace)[j]].sample
  {
    if trace == [] {
    } else {
      SamplesAt(trace[..|trace| - 1]);
    }
  }

  lemma {:induction false} SamplesConcat(a: seq<Event>, b: seq<Event>)
    ensures SamplesOf(a + b) == SamplesOf(a) + SamplesOf(b)
  {
    if b == [] {
      assert a + b == a;
    } else {
      var front := b[..|b| - 1];
      SamplesConcat(a, front);
      assert (a + b)[..|a + b| - 1] == a + front;
    }
  }

  /** Every publication is what `make` makes of the samples taken up to and including its own. */
  ghost predicate Made(trace: seq<Event>, make: seq<Sample> -> Data) {
    forall k :: 0 <= k < |trace| && trace[k].Publish? ==> trace[k].data == make(SamplesOf(trace[..k + 1]))
  }

  lemma {:induction false} AccessesRecorded(trace: seq<Event>, events: seq<Event>, make: seq<Sample> -> Data)
    requires Made(trace, make) && forall j :: 0 <= j < |events| ==> events[j].Access?
    ensures Made(trace + events, make) && SamplesOf(trace + events) == SamplesOf(trace)
  {
    if events == [] {
      assert trace + events == trace;
    } else {
      var front, last := events[..|events| - 1], events[|events| - 1];
      AccessesRecorded(trace, front, make);
      assert trace + events == trace + front + [last];
      OneMore(trace + front, last, make);
    }
  }

  /** One more event, which if it publishes is made of the samples before and its own. */
  lemma OneMore(trace: seq<Event>, e: Event, make: seq<Sample> -> Data)
    requires Made(trace, make)
    requires e.Publish? ==> e.data == make(SamplesOf(trace) + [e.sample])
    ensures Made(trace + [e], make)
    ensures SamplesOf(trace + [e]) == SamplesOf(trace) + if e.Publish? then [e.sample] else []
  {
    var trace' := trace + [e];
    assert trace'[..|trace|] == trace && trace'[..|trace'|] == trace';
    assert SamplesOf(trace') == SamplesOf(trace) + if e.Publish? then [e.sample] else [];
    hide SamplesOf;
    forall k | 0 <= k < |trace'| && trace'[k].Publish?
      ensures trace'[k].data == make(SamplesOf(trace'[..k + 1]))
    {
      if k < |trace| {
        assert trace'[..k + 1] == trace[..k + 1];
      }
    }
  }

  /** The events of one resume: accesses, and perhaps a publication as the last. */
  ghost predicate Publishes(events: seq<Event>) {
    events != [] && events[|events| - 1].Publish?
  }

  ghost predicate PublishesLast(events: seq<Event>) {
    forall j :: 0 <= j < |events| - 1 ==> events[j].Access?
  }

  lemma ResumeRecorded(trace: seq<Event>, events: seq<Event>, make: seq<Sample> -> Data)
    requires Made(trace, make) && PublishesLast(events)
    requires Publishes(events) ==> var e := events[|events| - 1]; e.data == make(SamplesOf(trace) + [e.sample])
    ensures Made(trace + events, make)
    ensures SamplesOf(trace + events)
         == SamplesOf(trace) + if Publishes(events) then [events[|events| - 1].sample] else []
  {
    hide Made, SamplesOf;
    if Publishes(events) {
      var front, last := events[..|events| - 1], events[|events| - 1];
      AccessesRecorded(trace, front, make);
      OneMore(trace + front, last, make);
      assert trace + events == trace + front + [last];
    } else {
      AccessesRecorded(trace, events, make);
    }
  }

  // ---------------------------------------------------------------- how far back the last samples reach

  /** The last n samples of the trace exist and were all taken at or after position p. */
  ghost predicate LastTakenSince(trace: seq<Event>, n: nat, p: nat) {
    var at := Positions(trace);
    |at| >= n && forall j :: |at| - n <= j < |at| ==> at[j] >= p
  }

  /** Position p divides the publications into those before and those since. */
  lemma {:induction false} PositionsSplit(trace: seq<Event>, p: nat)
    requires p <= |trace|
    ensures var at, before := Positions(trace), |SamplesOf(trace[..p])|;
      && |at| == before + |SamplesOf(trace[p..])|
      && forall j :: 0 <= j < |at| ==> (at[j] < p <==> j < before)
    decreases |trace|
  {
    if p == |trace| {
      assert trace[..p] == trace && trace[p..] == [];
      SamplesAt(trace);
    } else {
      var last := |trace| - 1;
      var front := trace[..last];
      PositionsSplit(front, p);
      assert front[..p] == trace[..p] && trace[p..][..last - p] == front[p..];
    }
  }

  /** The last n samples were all taken since p if and only if at least n were. */
  lemma LastTakenSinceExactly(trace: seq<Event>, n: nat, p: nat)
    requires p <= |trace| && n > 0
    ensures LastTakenSince(trace, n, p) <==> |SamplesOf(trace[p..])| >= n
  {
    PositionsSplit(trace, p);
    hide Positions, SamplesOf;
    var at := Positions(trace);
    if LastTakenSince(trace, n, p) {
      assert at[|at| - n] >= p;
    }
  }
}
