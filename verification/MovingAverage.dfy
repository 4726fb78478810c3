/** The moving average over a circular buffer (internal/movingaverage/simple.go).  Floats are
    modelled as reals. */
module MovingAverage {

  function Sum(s: seq<real>): real { if s == [] then 0.0 else Sum(s[..|s| - 1]) + s[|s| - 1] }

  function Average(s: seq<real>): real
    requires s != []
  {
    Sum(s) / |s| as real
  }

  /** The window after one more sample: the oldest value is dropped. */
  function Slide(window: seq<real>, sample: real): seq<real>
    requires window != []
  {
    window[1..] + [sample]
  }

  function SlideAll(window: seq<real>, samples: seq<real>): (r: seq<real>)
    requires window != []
    ensures |r| == |window|
  {
    if samples == [] then window
    else Slide(SlideAll(window, samples[..|samples| - 1]), samples[|samples| - 1])
  }

  lemma {:induction false} SumConcat(a: seq<real>, b: seq<real>)
    ensures Sum(a + b) == Sum(a) + Sum(b)
  {
    if b == [] {
      assert a + b == a;
    } else {
      SumConcat(a, b[..|b| - 1]);
      assert (a + b)[..|a + b| - 1] == a + b[..|b| - 1];
    }
  }

  /** The window always holds the last values of the seed followed by all samples. */
  lemma {:induction false} WindowIsLastSamples(seed: seq<real>, samples: seq<real>)
    requires seed != []
    ensures SlideAll(seed, samples) == (seed + samples)[|samples|..]
  {
    if samples != [] {
      var front, x := samples[..|samples| - 1], samples[|samples| - 1];
      WindowIsLastSamples(seed, front);
      assert seed + samples == seed + front + [x];
    }
  }

  lemma {:induction false} SumOfZeros(s: seq<real>)
    requires forall i :: 0 <= i < |s| ==> s[i] == 0.0
    ensures Sum(s) == 0.0
  {
    if s != [] { SumOfZeros(s[..|s| - 1]); }
  }

  /** As many zero samples as the window is long bring the average to exactly zero. */
  lemma {:induction false} ZeroSamplesZeroAverage(seed: seq<real>, samples: seq<real>)
    requires seed != [] && |samples| >= |seed| && forall i :: 0 <= i < |samples| ==> samples[i] == 0.0
    ensures Average(SlideAll(seed, samples)) == 0.0
  {
    hide SlideAll;
    var w := SlideAll(seed, samples);
    WindowIsLastSamples(seed, samples);
    forall i | 0 <= i < |w| ensures w[i] == 0.0 {
      assert w[i] == (seed + samples)[|samples| + i] == samples[|samples| - |seed| + i];
    }
    SumOfZeros(w);
  }

  lemma {:induction false} SumNonNegative(s: seq<real>)
    requires forall i :: 0 <= i < |s| ==> s[i] >= 0.0
    ensures Sum(s) >= 0.0
  {
    if s != [] { SumNonNegative(s[..|s| - 1]); }
  }

  // ----- what an average is: it lies among the samples, and each sample weighs the same

  lemma OneMoreTimes(n: real, x: real)
    ensures n * x == (n - 1.0) * x + x
  {
  }

  lemma {:induction false} SumBetween(s: seq<real>, low: real, high: real)
    requires forall i :: 0 <= i < |s| ==> low <= s[i] <= high
    ensures |s| as real * low <= Sum(s) <= |s| as real * high
  {
    if s != [] {
      SumBetween(s[..|s| - 1], low, high);
      OneMoreTimes(|s| as real, low);
      OneMoreTimes(|s| as real, high);
    }
  }

  lemma QuotientBetween(sum: real, n: real, low: real, high: real)
    requires n > 0.0 && n * low <= sum <= n * high
    ensures low <= sum / n <= high
  {
    var q := sum / n;
    assert q * n == sum;
    if q < low { Below(n, q, low); }
    if high < q { Below(n, high, q); }
  }

  lemma Below(n: real, x: real, y: real)
    requires n > 0.0 && x < y
    ensures n * x < n * y
  {
  }

  /** The average lies between any two bounds of the samples, so between the least and the
      greatest of them. */
  lemma AverageBetween(w: seq<real>, low: real, high: real)
    requires w != [] && forall i :: 0 <= i < |w| ==> low <= w[i] <= high
    ensures low <= Average(w) <= high
  {
    SumBetween(w, low, high);
    QuotientBetween(Sum(w), |w| as real, low, high);
  }

  lemma SumRaised(s: seq<real>, i: nat, d: real)
    requires i < |s|
    ensures Sum(s[i := s[i] + d]) == Sum(s) + d
  {
    var front, back := s[..i], s[i + 1..];
    SumConcat(front + [s[i]], back);
    SumConcat(front, [s[i]]);
    SumConcat(front + [s[i] + d], back);
    SumConcat(front, [s[i] + d]);
    assert s == front + [s[i]] + back && s[i := s[i] + d] == front + [s[i] + d] + back;
    SumOfOne(s[i]);
    SumOfOne(s[i] + d);
  }

  lemma SumOfOne(x: real)
    ensures Sum([x]) == x
  {
    assert [x][..0] == [];
  }

  /** Raising one sample by `d` raises the average by `d` over the length of the window. */
  lemma AverageRaised(w: seq<real>, i: nat, d: real)
    requires i < |w|
    ensures Average(w[i := w[i] + d]) == Average(w) + d / |w| as real
  {
    SumRaised(w, i, d);
    QuotientOfSum(Sum(w), d, |w| as real);
  }

  lemma QuotientOfSum(a: real, b: real, n: real)
    requires n > 0.0
    ensures (a + b) / n == a / n + b / n
  {
  }

  /** A window of one value throughout averages to that value. */
  lemma AverageOfOneValue(w: seq<real>, x: real)
    requires w != [] && forall i :: 0 <= i < |w| ==> w[i] == x
    ensures Average(w) == x
  {
    AverageBetween(w, x, x);
  }

  lemma {:induction false} Extremes(w: seq<real>) returns (i: nat, j: nat)
    requires w != []
    ensures i < |w| && j < |w| && forall k :: 0 <= k < |w| ==> w[i] <= w[k] <= w[j]
  {
    var last := |w| - 1;
    if last == 0 {
      i, j := 0, 0;
    } else {
      i, j := Extremes(w[..last]);
      i, j := if w[last] < w[i] then last else i, if w[last] > w[j] then last else j;
    }
  }

  class Simple {
    const history: array<real>
    var index: nat

    ghost predicate Valid() reads this { index < history.Length }

    /** The samples from oldest to newest. */
    ghost function Window(): (w: seq<real>)
      requires Valid()
      reads this, history
      ensures |w| == history.Length
    {
      history[index..] + history[..index]
    }

    /** Takes over the seed slice; it must not be empty. */
    constructor (seed: array<real>)
      requires seed.Length > 0
      ensures history == seed && Valid() && Window() == seed[..]
    {
      history, index := seed, 0;
    }

    method Next(next: real)
      requires Valid()
      modifies this`index, history
      ensures Valid() && Window() == Slide(old(Window()), next)
    {
      ghost var h, i := history[..], index;
      history[index] := next;
      assert history[..] == h[..i] + [next] + h[i + 1..];
      index := index + 1;
      if index == history.Length {
        index := 0;
      }
      assert old(Window()) == h[i..] + h[..i];
    }

    /** The mean of the buffer, which is the mean of the window. */
    method Calculate() returns (result: real)
      requires Valid()
      ensures result == Average(Window())
      ensures exists i, j :: 0 <= i < history.Length && 0 <= j < history.Length && history[i] <= result <= history[j]
    {
      result := Mean();
      ghost var w := Window();
      ghost var i, j := Extremes(w);
      AverageBetween(w, w[i], w[j]);
      hide Average;
      assert w[i] == history[InBuffer(i)] && w[j] == history[InBuffer(j)];
    }

    /** Where the k-th oldest sample lies. */
    ghost function InBuffer(k: nat): nat
      requires Valid() && k < history.Length
      reads this
      ensures InBuffer(k) < history.Length
    {
      if k < history.Length - index then index + k else k - (history.Length - index)
    }

    method Mean() returns (result: real)
      requires Valid()
      ensures result == Average(Window())
    {
      result := 0.0;
      for i := 0 to history.Length
        invariant result == Sum(history[..i])
      {
        assert history[..i + 1][..i] == history[..i];
        result := result + history[i];
      }
      assert history[..] == history[..index] + history[index..];
      assert history[..history.Length] == history[..];
      SumConcat(history[..index], history[index..]);
      SumConcat(history[index..], history[..index]);
      result := result / history.Length as real;
    }

    /** A copy of the buffer as it lies in memory. */
    method History() returns (result: array<real>)
      ensures fresh(result) && result[..] == history[..]
    {
      result := new real[history.Length];
      for i := 0 to history.Length
        invariant forall j :: 0 <= j < i ==> result[j] == history[j]
      {
        result[i] := history[i];
      }
    }
  }
}
