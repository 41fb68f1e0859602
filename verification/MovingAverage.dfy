/**
 The circular-buffer moving average: constant work per sample, proved to be the mean of the
 most recent samples. Samples are real numbers.
 */
module MovingAverage {
  import opened Sequences

  function Sum(xs: seq<real>): real
  {
    if xs == [] then 0.0 else Sum(xs[..|xs| - 1]) + xs[|xs| - 1]
  }

  /** The reference: the last `size` samples of a history, or all of them if there are fewer. */
  function Recent(history: seq<real>, size: nat): (window: seq<real>)
    ensures |window| == Min(|history|, size)
  {
    history[|history| - Min(|history|, size)..]
  }

  function Mean(xs: seq<real>): real
  {
    if xs == [] then 0.0 else Sum(xs) / |xs| as real
  }

  lemma {:induction false} SumDropFirst(xs: seq<real>)
    requires xs != []
    ensures Sum(xs[1..]) == Sum(xs) - xs[0]
  {
    var init := xs[..|xs| - 1];
    if |xs| == 1 {
      assert xs[1..] == [] && init == [];
    } else {
      SumDropFirst(init);
      assert xs[1..][..|xs| - 2] == init[1..];
    }
  }

  lemma SumSnoc(xs: seq<real>, x: real)
    ensures Sum(xs + [x]) == Sum(xs) + x
  {
    assert (xs + [x])[..|xs|] == xs;
  }

  /** Sliding a full window by one sample. */
  lemma RecentSlides(history: seq<real>, x: real, size: nat)
    requires 0 < size
    ensures |history| < size ==> Sum(Recent(history + [x], size)) == Sum(Recent(history, size)) + x
    ensures size <= |history| ==>
              Sum(Recent(history + [x], size)) == Sum(Recent(history, size)) - history[|history| - size] + x
  {
    var window := Recent(history, size);
    if |history| < size {
      assert Recent(history + [x], size) == window + [x];
      SumSnoc(window, x);
    } else {
      assert Recent(history + [x], size) == window[1..] + [x];
      SumSnoc(window[1..], x);
      SumDropFirst(window);
    }
  }

  lemma {:induction false} SumWithin(xs: seq<real>, lo: real, hi: real)
    requires forall x :: x in xs ==> lo <= x <= hi
    ensures lo * |xs| as real <= Sum(xs) <= hi * |xs| as real
  {
    if xs != [] {
      var init := xs[..|xs| - 1];
      assert forall x :: x in init ==> x in xs;
      SumWithin(init, lo, hi);
      assert xs[|xs| - 1] in xs;
      assert lo * |xs| as real == lo * |init| as real + lo;
      assert hi * |xs| as real == hi * |init| as real + hi;
    }
  }

  /** An average stays inside every interval that contains the samples averaged. */
  lemma MeanWithin(history: seq<real>, size: nat, lo: real, hi: real)
    requires 0 < size && history != []
    requires forall x :: x in history ==> lo <= x <= hi
    ensures lo <= Mean(Recent(history, size)) <= hi
  {
    var window := Recent(history, size);
    assert forall x :: x in window ==> x in history;
    SumWithin(window, lo, hi);
    DivideBounds(Sum(window), |window| as real, lo, hi);
  }

  lemma DivideBounds(sum: real, n: real, lo: real, hi: real)
    requires 0.0 < n && lo * n <= sum <= hi * n
    ensures lo <= sum / n <= hi
  {
    var q := sum / n;
    assert q * n == sum;
    assert q < lo ==> (lo - q) * n > 0.0;
    assert q > hi ==> (q - hi) * n > 0.0;
  }

  /** A remainder is determined by the number it is the remainder of. */
  lemma SameRemainder(n: int, q: int, r: int, q': int, r': int)
    requires 0 <= r < n && 0 <= r' < n && n * q + r == n * q' + r'
    ensures r == r'
  {
    var d := q - q';
    assert n * d == r' - r;
    assert d >= 1 ==> n * d >= n;
    assert d <= -1 ==> n * d <= -n;
  }

  lemma RemainderIs(i: int, n: int, q: int, r: int)
    requires 0 <= r < n && i == n * q + r
    ensures i % n == r
  {
    SameRemainder(n, i / n, i % n, q, r);
  }

  /** Positions less than `n` apart fall in different slots. */
  lemma SlotsDiffer(i: nat, j: nat, n: nat)
    requires 0 < n && i < j < i + n
    ensures i % n != j % n
  {
    var d := j / n - i / n;
    assert j - i == n * d + (j % n - i % n);
    assert d >= 1 ==> n * d >= n;
    assert d <= 0 ==> n * d <= 0;
  }

  /** Positions `n` apart fall in the same slot. */
  lemma SlotsCoincide(i: nat, n: nat)
    requires 0 < n
    ensures (i + n) % n == i % n
  {
    assert i + n == n * (i / n + 1) + i % n;
    RemainderIs(i + n, n, i / n + 1, i % n);
  }

  lemma NextSlot(i: nat, n: nat)
    requires 0 < n
    ensures (i % n + 1) % n == (i + 1) % n
  {
    if i % n + 1 == n {
      assert i + 1 == n * (i / n + 1) + 0;
      RemainderIs(i + 1, n, i / n + 1, 0);
      RemainderIs(n, n, 1, 0);
    } else {
      assert i + 1 == n * (i / n) + (i % n + 1);
      RemainderIs(i + 1, n, i / n, i % n + 1);
      RemainderIs(i % n + 1, n, 0, i % n + 1);
    }
  }

  /** Slot `j % size` holds sample `j`, for each of the most recent samples. */
  ghost predicate Ring(slots: seq<real>, history: seq<real>)
    requires 0 < |slots|
  {
    forall j :: |history| - Min(|history|, |slots|) <= j < |history| ==> slots[j % |slots|] == history[j]
  }

  lemma RingAdd(slots: seq<real>, history: seq<real>, x: real)
    requires 0 < |slots| && Ring(slots, history)
    ensures Ring(slots[|history| % |slots| := x], history + [x])
    ensures |slots| <= |history| ==> slots[|history| % |slots|] == history[|history| - |slots|]
  {
    var n, size := |history|, |slots|;
    forall j | n + 1 - Min(n + 1, size) <= j < n
      ensures slots[n % size := x][j % size] == history[j]
    {
      SlotsDiffer(j, n, size);
    }
    if size <= n {
      SlotsCoincide(n - size, size);
    }
  }

  /** What the fields say about the history. */
  ghost predicate Tracks(slots: seq<real>, index: int, count: int, sum: real, history: seq<real>)
  {
    && 0 < |slots|
    && count == Min(|history|, |slots|)
    && index == |history| % |slots|
    && sum == Sum(Recent(history, |slots|))
    && Ring(slots, history)
  }

  lemma AddTracks(slots: seq<real>, index: int, count: int, sum: real, history: seq<real>, x: real)
    requires Tracks(slots, index, count, sum, history)
    ensures 0 <= index < |slots|
    ensures var sum' := (if count == |slots| then sum - slots[index] else sum) + x;
            var count' := if count < |slots| then count + 1 else count;
            Tracks(slots[index := x], (index + 1) % |slots|, count', sum', history + [x])
  {
    RecentSlides(history, x, |slots|);
    RingAdd(slots, history, x);
    NextSlot(|history|, |slots|);
  }

  lemma MeanFromSum(slots: seq<real>, index: int, count: int, sum: real, history: seq<real>)
    requires Tracks(slots, index, count, sum, history)
    ensures count == 0 <==> history == []
    ensures count != 0 ==> sum / count as real == Mean(Recent(history, |slots|))
  {
  }

  class MovingAverage {
    const samples: array<real>
    var index: int
    var count: int
    const size: int
    var sum: real

    /** Every sample added since the creation or the last reset. */
    ghost var history: seq<real>

    ghost predicate Valid()
      reads this, samples
    {
      && 1 <= size == samples.Length
      && Tracks(samples[..], index, count, sum, history)
    }

    constructor (requested: int)
      ensures Valid() && fresh(samples)
      ensures size == if requested <= 0 then 1 else requested
      ensures history == []
    {
      size := if requested <= 0 then 1 else requested;
      samples := new real[if requested <= 0 then 1 else requested](_ => 0.0);
      index, count, sum := 0, 0, 0.0;
      history := [];
    }

    method Add(value: real) returns (average: real)
      requires Valid()
      modifies this, samples
      ensures Valid()
      ensures history == old(history) + [value]
      ensures average == Mean(Recent(history, size))
    {
      ghost var before := samples[..];
      AddTracks(before, index, count, sum, history, value);
      if count == size {
        sum := sum - samples[index];
      }
      samples[index] := value;
      assert samples[..] == before[index := value];
      sum := sum + value;
      index := (index + 1) % size;
      if count < size {
        count := count + 1;
      }
      history := history + [value];
      MeanFromSum(samples[..], index, count, sum, history);
      return sum / count as real;
    }

    method Get() returns (average: real)
      requires Valid()
      ensures history == [] ==> average == 0.0
      ensures average == Mean(Recent(history, size))
    {
      if count == 0 {
        return 0.0;
      }
      return sum / count as real;
    }

    method Reset()
      requires Valid()
      modifies this, samples
      ensures Valid()
      ensures history == []
    {
      sum := 0.0;
      count := 0;
      index := 0;
      for i := 0 to samples.Length
        modifies samples
      {
        samples[i] := 0.0;
      }
      history := [];
    }
  }
}
