/** A fixed window over everything received so far, kept in a ring. */
module Ring {

  function Filled<T>(n: nat, zero: T): seq<T> {
    seq(n, _ => zero)
  }

  /** The last n inputs, oldest first; positions before the first input hold `zero`. */
  function Window<T>(history: seq<T>, n: nat, zero: T): (w: seq<T>)
    ensures |w| == n
  {
    (Filled(n, zero) + history)[|history|..]
  }

  /** The ring content from the next slot to be written onwards. */
  function Unrolled<T>(ring: seq<T>, index: nat): (w: seq<T>)
    requires index <= |ring|
    ensures |w| == |ring|
  {
    ring[index..] + ring[..index]
  }

  /** Overwriting the oldest slot and moving on gives the next window. */
  lemma RingAdvances<T>(ring: seq<T>, index: nat, history: seq<T>, value: T, zero: T)
    requires index < |ring| && Unrolled(ring, index) == Window(history, |ring|, zero)
    ensures Unrolled(ring[index := value], index + 1) == Window(history + [value], |ring|, zero)
  {
    var n := |ring|;
    var padded := Filled(n, zero) + history;
    assert Filled(n, zero) + (history + [value]) == padded + [value];
    assert Window(history + [value], n, zero) == Window(history, n, zero)[1..] + [value];
    assert Unrolled(ring[index := value], index + 1) == Unrolled(ring, index)[1..] + [value];
  }

  lemma WindowAt<T>(history: seq<T>, n: nat, zero: T)
    ensures forall i :: 0 <= i < n ==>
      Window(history, n, zero)[i] == if |history| + i < n then zero else history[|history| + i - n]
  {
  }

  /** With n inputs of its own, a suffix has the window of the whole history. */
  lemma WindowOfSuffix<T>(prefix: seq<T>, suffix: seq<T>, n: nat, zero: T)
    requires |suffix| >= n
    ensures Window(prefix + suffix, n, zero) == Window(suffix, n, zero)
  {
    WindowAt(prefix + suffix, n, zero);
    WindowAt(suffix, n, zero);
  }

  /** Once n equal inputs have arrived, the window holds nothing else. */
  lemma WindowConstant<T>(history: seq<T>, n: nat, value: T, zero: T)
    requires |history| >= n && forall i :: |history| - n <= i < |history| ==> history[i] == value
    ensures Window(history, n, zero) == Filled(n, value)
  {
  }
}

module MovingAverage {
  import opened Ring

  function Sum(s: seq<real>): real {
    if |s| == 0 then 0.0 else Sum(s[..|s| - 1]) + s[|s| - 1]
  }

  lemma SumNext(s: seq<real>, i: nat)
    requires i < |s|
    ensures Sum(s[..i + 1]) == Sum(s[..i]) + s[i]
  {
    assert s[..i + 1][..i] == s[..i];
  }

  lemma {:induction false} SumConcat(s: seq<real>, t: seq<real>)
    ensures Sum(s + t) == Sum(s) + Sum(t)
  {
    if |t| == 0 {
      assert s + t == s;
    } else {
      SumConcat(s, t[..|t| - 1]);
      assert (s + t)[..|s + t| - 1] == s + t[..|t| - 1];
    }
  }

  /** The mean of the last n values; positions before the first value count as zero. */
  function MeanOf(values: seq<real>, n: nat): real
    requires n > 0
  {
    Sum(Window(values, n, 0.0)) / n as real
  }

  lemma {:induction false} SumConstant(n: nat, x: real)
    ensures Sum(Filled(n, x)) == n as real * x
  {
    if n == 0 {
    } else {
      SumConstant(n - 1, x);
      assert Filled(n, x)[..n - 1] == Filled(n - 1, x);
      OneMore(n - 1, x);
    }
  }

  lemma OneMore(n: nat, x: real)
    ensures (n + 1) as real * x == n as real * x + x
  {
  }

  /** A steady input is answered by itself once the window is full, and by k / n of it before, after k inputs. */
  lemma SteadyMean(values: seq<real>, n: nat, x: real)
    requires n > 0 && forall i :: 0 <= i < |values| && |values| - n <= i ==> values[i] == x
    ensures |values| >= n ==> MeanOf(values, n) == x
    ensures |values| < n ==> MeanOf(values, n) == |values| as real * x / n as real
  {
    hide Sum, Window;
    if |values| >= n {
      WindowConstant(values, n, x, 0.0);
      SumConstant(n, x);
    } else {
      WindowSplit([], values, n);
      assert [] + values == values && values == Filled(|values|, x);
      SumConcat(Window([], n - |values|, 0.0), values);
      SumOfNothing(n - |values|);
      SumConstant(|values|, x);
    }
  }

  /** Fewer than n values at the end of a history leave the rest of the window to what came before them. */
  lemma MeanOfSplit(earlier: seq<real>, since: seq<real>, n: nat)
    requires |since| <= n && n > 0
    ensures MeanOf(earlier + since, n) == MeanOf(since, n) + Sum(Window(earlier, n - |since|, 0.0)) / n as real
  {
    hide Window, Sum;
    WindowSplit(earlier, since, n);
    WindowSplit([], since, n);
    assert [] + since == since;
    SumConcat(Window(earlier, n - |since|, 0.0), since);
    SumConcat(Window([], n - |since|, 0.0), since);
    SumOfNothing(n - |since|);
  }

  lemma WindowSplit(earlier: seq<real>, since: seq<real>, n: nat)
    requires |since| <= n
    ensures Window(earlier + since, n, 0.0) == Window(earlier, n - |since|, 0.0) + since
  {
    WindowAt(earlier + since, n, 0.0);
    WindowAt(earlier, n - |since|, 0.0);
  }

  lemma SumOfNothing(n: nat)
    ensures Sum(Window([], n, 0.0)) == 0.0
  {
    hide Sum;
    assert Window([], n, 0.0) == Filled(n, 0.0);
    SumOfZeros(n);
  }

  lemma {:induction false} SumOfZeros(n: nat)
    ensures Sum(Filled(n, 0.0)) == 0.0
  {
    if n == 0 {
    } else {
      SumOfZeros(n - 1);
      assert Filled(n, 0.0)[..n - 1] == Filled(n - 1, 0.0);
    }
  }

  /** The order in which the ring stores the window does not matter to its sum. */
  lemma SumUnrolled(ring: seq<real>, index: nat)
    requires index <= |ring|
    ensures Sum(Unrolled(ring, index)) == Sum(ring)
  {
    var front, back := ring[..index], ring[index..];
    assert front + back == ring && Unrolled(ring, index) == back + front;
    hide *;
    SumConcat(front, back);
    SumConcat(back, front);
  }

  class Filter {
    const size: nat
    const elements: array<real>
    var index: nat
    ghost var history: seq<real>

    ghost predicate Valid()
      reads this, elements
    {
      && 0 < size == elements.Length
      && index <= size
      && Unrolled(elements[..], index) == Window(history, size, 0.0)
    }

    constructor (size: nat)
      requires size > 0
      ensures Valid() && history == [] && this.size == size
      ensures fresh(elements)
    {
      this.size := size;
      elements := new real[size](_ => 0.0);
      index := 0;
      history := [];
    }

    /** After any number of calls: the sum of the last `size` inputs, divided by `size`. */
    method Apply(value: real) returns (mean: real)
      requires Valid()
      modifies this, elements
      ensures Valid() && history == old(history) + [value]
      ensures mean == MeanOf(history, size)
    {
      hide Sum, Window;
      if index == size {
        assert Unrolled(elements[..], 0) == Unrolled(elements[..], size);
        index := 0;
      }
      ghost var before := elements[..];
      RingAdvances(before, index, history, value, 0.0);
      elements[index] := value;
      assert elements[..] == before[index := value];
      history := history + [value];
      index := index + 1;

      SumUnrolled(elements[..], index);
      assert Valid();
      hide Unrolled;
      var maximum := SumElements();
      mean := maximum / size as real;
    }

    /** The pairwise loop and the tail. */
    method SumElements() returns (maximum: real)
      requires 0 < size == elements.Length
      ensures maximum == Sum(elements[..])
    {
      ghost var ring := elements[..];
      maximum := 0.0;
      SumEmpty(ring);
      hide Sum;
      for i := 0 to size / 2
        invariant maximum == Sum(ring[..2 * i])
      {
        SumNext(ring, 2 * i);
        SumNext(ring, 2 * i + 1);
        maximum := maximum + (elements[2 * i] + elements[2 * i + 1]);
      }
      if size % 2 != 0 {
        for i := size - 1 to size
          invariant maximum == Sum(ring[..i])
        {
          SumNext(ring, i);
          maximum := maximum + elements[i];
        }
      }
      assert ring[..size] == ring;
    }
  }

  lemma SumEmpty(s: seq<real>)
    ensures Sum(s[..0]) == 0.0
  {
  }
}
