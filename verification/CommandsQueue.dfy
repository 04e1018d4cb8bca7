/** The latest operator commands, with a counter that lets them expire. */
module CommandsQueue {

  datatype Commands = Commands(
    move: seq<real>,
    hand: seq<real>,
    lowPwm: seq<real>,
    stabilization: bool,
    target: seq<real>)
  {
    predicate Shaped() {
      |move| == 6 && |hand| == 6 && |lowPwm| == 4 && |target| == 4
    }
  }

  /** A default-constructed command: everything off. */
  const NEUTRAL := Commands([0.0, 0.0, 0.0, 0.0, 0.0, 0.0], [0.0, 0.0, 0.0, 0.0, 0.0, 0.0], [0.0, 0.0, 0.0, 0.0],
                            false, [0.0, 0.0, 0.0, 0.0])

  const MAX_COUNT: nat := 400

  /** size_t counters wrap at 2^64. */
  const WRAP: nat := 0x1_0000_0000_0000_0000

  datatype Event = Add(commands: Commands) | Get

  /** The number of gets after the last add, or since the start. */
  function GetsSinceAdd(h: seq<Event>): nat {
    if |h| == 0 || h[|h| - 1].Add? then 0 else GetsSinceAdd(h[..|h| - 1]) + 1
  }

  /** The last commands added, neutral at the start. */
  function LastAdded(h: seq<Event>): Commands {
    if |h| == 0 then NEUTRAL
    else match h[|h| - 1]
      case Add(c) => c
      case Get => LastAdded(h[..|h| - 1])
  }

  /** What a get that ends the history h answers: the last commands for the first 399 gets after
      they were added, neutral commands from then on. */
  function Answer(h: seq<Event>): Commands {
    if GetsSinceAdd(h) < MAX_COUNT then LastAdded(h) else NEUTRAL
  }

  class Queue {
    var commands: Commands
    var requestsCount: nat
    ghost var history: seq<Event>

    ghost predicate Valid()
      reads this
    {
      && requestsCount == GetsSinceAdd(history) % WRAP
      && commands == Answer(history)
    }

    constructor ()
      ensures Valid() && history == []
    {
      commands := NEUTRAL;
      requestsCount := 0;
      history := [];
    }

    /** Over every interleaving of the two methods, and however often the counter wraps. */
    method GetCommands() returns (c: Commands)
      requires Valid()
      modifies this
      ensures Valid() && history == old(history) + [Get]
      ensures c == Answer(history)
    {
      assert (history + [Get])[..|history|] == history;
      history := history + [Get];
      requestsCount := (requestsCount + 1) % WRAP;
      if requestsCount == MAX_COUNT {
        commands := NEUTRAL;
      }
      return commands;
    }

    method AddCommands(c: Commands)
      requires Valid()
      modifies this
      ensures Valid() && history == old(history) + [Add(c)]
    {
      requestsCount := 0;
      commands := c;
      history := history + [Add(c)];
    }
  }

  // ---------------------------------------------------------------- the answer, in terms of positions

  /** Commands added at position k answer exactly the next 399 gets, as long as nothing else is added. */
  lemma {:induction false} AnswersAfterAdd(h: seq<Event>, k: nat)
    requires k < |h| && h[k].Add? && forall i :: k < i < |h| ==> h[i].Get?
    ensures GetsSinceAdd(h) == |h| - 1 - k
    ensures Answer(h) == if |h| - 1 - k <= 399 then h[k].commands else NEUTRAL
  {
    GetsAfterAdd(h, k);
  }

  lemma {:induction false} GetsAfterAdd(h: seq<Event>, k: nat)
    requires k < |h| && h[k].Add? && forall i :: k < i < |h| ==> h[i].Get?
    ensures GetsSinceAdd(h) == |h| - 1 - k && LastAdded(h) == h[k].commands
  {
    if k == |h| - 1 {
    } else {
      GetsAfterAdd(h[..|h| - 1], k);
    }
  }

  /** Before anything was added every get answers neutral commands. */
  lemma {:induction false} AnswersBeforeAdd(h: seq<Event>)
    requires forall i :: 0 <= i < |h| ==> h[i].Get?
    ensures Answer(h) == NEUTRAL && LastAdded(h) == NEUTRAL
  {
    if |h| == 0 {
    } else {
      AnswersBeforeAdd(h[..|h| - 1]);
    }
  }

  /** Answers have the shape of what was added. */
  lemma {:induction false} AnswerShaped(h: seq<Event>)
    requires forall i :: 0 <= i < |h| && h[i].Add? ==> h[i].commands.Shaped()
    ensures Answer(h).Shaped() && LastAdded(h).Shaped()
  {
    if |h| == 0 || h[|h| - 1].Add? {
    } else {
      AnswerShaped(h[..|h| - 1]);
    }
  }
}
