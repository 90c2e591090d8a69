/** common/granulator: splitting a number of elements between threads. */
module Granulation {
  import opened Arithmetic
  import opened Basics

  const THRESHOLD: u64 := 128

  // Any std::size_t of elements, and a known std::thread::hardware_concurrency().
  predicate InRange(elements: nat, hardware: nat) {
    elements < TWO_64 && 0 < hardware <= 0xffff_ffff
  }

  function Threads(elements: nat, hardware: nat): (t: nat)
    requires InRange(elements, hardware)
    ensures t > 0
  {
    if elements <= hardware * THRESHOLD then 1 else hardware
  }

  function Grain(elements: nat, hardware: nat): nat
    requires InRange(elements, hardware)
  {
    elements / Threads(elements, hardware)
  }

  // The inclusive range of the k-th call of Step, computed modulo 2^64.
  function Range(elements: nat, grain: nat, k: nat): (u64, u64) {
    var to := ((k + 1) * grain - 1) % TWO_64;
    (k * grain % TWO_64, if (to + THRESHOLD) % TWO_64 >= elements then (elements - 1) % TWO_64 else to)
  }

  function ThreadRange(elements: nat, hardware: nat, k: nat): (u64, u64)
    requires InRange(elements, hardware)
  {
    Range(elements, Grain(elements, hardware), k)
  }

  class Granulator {
    const threshold: u64
    const numElements: u64
    var numThreads: u64
    var grain: u64
    var step: u64

    constructor (elements: nat, hardware: nat)
      requires InRange(elements, hardware)
      ensures numElements == elements && threshold == THRESHOLD && step == 0
      ensures numThreads == Threads(elements, hardware) && grain == Grain(elements, hardware)
    {
      threshold, numElements := THRESHOLD, elements;
      numThreads, grain, step := hardware, elements / hardware, 0;
      if elements <= hardware * THRESHOLD {
        numThreads := 1;
        grain := elements;
      }
    }

    method Step() returns (range: (u64, u64))
      requires threshold == THRESHOLD && step < TWO_64 - 1
      modifies this`step
      ensures range == Range(numElements, grain, old(step)) && step == old(step) + 1
    {
      var from := step * grain % TWO_64;
      var to := ((step + 1) * grain - 1) % TWO_64;
      if (to + threshold) % TWO_64 >= numElements {
        to := (numElements - 1) % TWO_64;
      }
      range := (from, to);
      step := Increment64(step);
    }
  }

  // The first `count` ranges of the threads cover 0, 1, ..., end - 1 in order, without gap or overlap.
  ghost predicate Covers(elements: nat, hardware: nat, count: nat, end: nat)
    requires InRange(elements, hardware)
    decreases count
  {
    if count == 0 then end == 0
    else
      var (from, to) := ThreadRange(elements, hardware, count - 1);
      from <= to && to + 1 == end && Covers(elements, hardware, count - 1, from)
  }

  lemma GrainFacts(elements: nat, hardware: nat)
    requires InRange(elements, hardware) && elements > 0
    ensures var g, t := Grain(elements, hardware), Threads(elements, hardware);
            && elements == t * g + elements % t && 0 <= elements % t < t
            && g > 0 && (t > 1 ==> g >= THRESHOLD) && (t == 1 ==> elements % t == 0)
  {
    var g, t := Grain(elements, hardware), Threads(elements, hardware);
    assert elements == t * g + elements % t;
    if t > 1 && g < THRESHOLD {
      MulMonotone(g + 1, THRESHOLD, t);
    }
  }

  lemma Multiples(k: nat, t: nat, g: nat)
    requires k < t
    ensures 0 <= k * g && (k + 1) * g == k * g + g
    ensures if k == t - 1 then k * g + g == t * g else k * g + g + g <= t * g
  {
    if k < t - 1 && g > 0 {
      MulMonotone(k + 2, t, g);
      assert (k + 2) * g == k * g + g + g;
    }
  }

  // Range, for factors whose products are known.
  lemma RangeIs(elements: nat, grain: nat, k: nat, start: nat)
    requires 0 < elements < TWO_64 && start == k * grain && (k + 1) * grain == start + grain
    requires 0 < grain && start + grain <= elements
    requires elements <= THRESHOLD ==> start + grain == elements
    ensures Range(elements, grain, k)
         == (start, if Reaches(elements, start + grain) then elements - 1 else start + grain - 1)
  {
    var last := start + grain - 1;
    ModSmall(start, TWO_64);
    ModSmall(last, TWO_64);
    ModSmall(elements - 1, TWO_64);
    if last + THRESHOLD < TWO_64 {
      ModSmall(last + THRESHOLD, TWO_64);
    } else {
      DivModUnique(last + THRESHOLD, 1, last + THRESHOLD - TWO_64, TWO_64);
    }
  }

  // A range that would end before element `end` is made to reach the end of the elements: the
  // threshold spans the rest, and adding it does not wrap around.
  predicate Reaches(elements: nat, end: nat) {
    end == elements || (end - 1 + THRESHOLD >= elements && end - 1 + THRESHOLD < TWO_64)
  }

  // All threads but the last get `grain` elements; the last also gets the remainder, if it
  // reaches over it.
  lemma RangeOf(elements: nat, hardware: nat, k: nat)
    requires InRange(elements, hardware) && elements > 0 && k < Threads(elements, hardware)
    ensures var g, t := Grain(elements, hardware), Threads(elements, hardware);
            && ThreadRange(elements, hardware, k)
               == (k * g, (if k == t - 1 && Reaches(elements, k * g + g) then elements else k * g + g) - 1)
            && k * g + g <= elements
  {
    var g, t := Grain(elements, hardware), Threads(elements, hardware);
    hide Range, Grain, Threads;
    GrainFacts(elements, hardware);
    Multiples(k, t, g);
    RangeIs(elements, g, k, k * g);
  }

  lemma {:induction false} CoversPrefix(elements: nat, hardware: nat, count: nat)
    requires InRange(elements, hardware) && elements > 0 && count < Threads(elements, hardware)
    ensures Covers(elements, hardware, count, count * Grain(elements, hardware))
    decreases count
  {
    hide Range, Grain, Threads;
    if count > 0 {
      var g, t := Grain(elements, hardware), Threads(elements, hardware);
      GrainFacts(elements, hardware);
      RangeOf(elements, hardware, count - 1);
      Multiples(count - 1, t, g);
      CoversPrefix(elements, hardware, count - 1);
    }
  }

  // There is at least one element, and one thread does all the work, or nothing remains, or
  // the threshold exceeds the remainder and does not wrap around when it is added.
  predicate Divides(elements: nat, hardware: nat)
    requires InRange(elements, hardware)
  {
    && elements > 0
    && (|| elements <= hardware * 128
        || elements % hardware == 0
        || (elements % hardware < 128 && elements - elements % hardware + 127 < TWO_64))
  }

  // The ranges handed out partition the elements exactly under this condition, which holds
  // for up to 2^64 - 128 elements on up to 128 hardware threads.
  lemma StepsPartition(elements: nat, hardware: nat)
    requires InRange(elements, hardware)
    ensures Covers(elements, hardware, Threads(elements, hardware), elements) <==> Divides(elements, hardware)
    ensures 0 < elements <= TWO_64 - 128 && hardware <= 128 ==> Divides(elements, hardware)
  {
    if elements > 0 {
      LastRangeDecides(elements, hardware);
    }
  }

  // With more than 128 threads a remainder of 130 is left out.
  lemma LargeRemainderIsLost()
    ensures !Covers(256 * 200 + 130, 256, Threads(256 * 200 + 130, 256), 256 * 200 + 130)
  {
    hide Covers, Threads;
    StepsPartition(256 * 200 + 130, 256);
  }

  // Among the last sizes even a remainder of 2 is, because adding the threshold wraps around.
  lemma WrappedThresholdLosesRemainder()
    ensures !Covers(TWO_64 - 2, 4, Threads(TWO_64 - 2, 4), TWO_64 - 2)
  {
    hide Covers, Threads;
    StepsPartition(TWO_64 - 2, 4);
  }

  lemma LastRangeDecides(elements: nat, hardware: nat)
    requires InRange(elements, hardware) && elements > 0
    ensures Covers(elements, hardware, Threads(elements, hardware), elements)
            <==> Reaches(elements, elements - elements % Threads(elements, hardware))
  {
    hide Range, Grain, Threads;
    var g, t := Grain(elements, hardware), Threads(elements, hardware);
    GrainFacts(elements, hardware);
    RangeOf(elements, hardware, t - 1);
    Multiples(t - 1, t, g);
    CoversPrefix(elements, hardware, t - 1);
  }

  // One thread takes up to 128 elements for each hardware thread, all at once; above that the
  // hardware threads share the work.
  lemma OneThreadTakesSmallWork(elements: nat, hardware: nat)
    requires InRange(elements, hardware) && elements > 0
    ensures if elements <= 128 * hardware
            then Threads(elements, hardware) == 1 && ThreadRange(elements, hardware, 0) == (0, elements - 1)
            else Threads(elements, hardware) == hardware
  {
    RangeOf(elements, hardware, 0);
  }

  // When several threads share the work, each gets at least the threshold.
  lemma EveryShareIsWorthwhile(elements: nat, hardware: nat, k: nat)
    requires InRange(elements, hardware) && 1 < Threads(elements, hardware) && k < Threads(elements, hardware)
    ensures var (from, to) := ThreadRange(elements, hardware, k); to - from + 1 >= 128
  {
    hide Range, Grain;
    GrainFacts(elements, hardware);
    RangeOf(elements, hardware, k);
  }
}

/** misc/multi-vector.cc: workers add partial sums to a shared vector in any order. */
module MultiVector {
  import opened Arithmetic
  import opened Basics
  import opened Granulation

  lemma SplitMultiset(a: seq<int>, x: int, b: seq<int>)
    ensures multiset(a + ([x] + b)) == multiset{x} + multiset(a + b)
  {
    assert multiset(a + ([x] + b)) == multiset(a) + (multiset{x} + multiset(b));
  }

  lemma TotalWithout(b: seq<int>, j: nat)
    requires j < |b|
    ensures Total(b) == b[j] + Total(b[..j] + b[j + 1..])
    ensures multiset(b) == multiset{b[j]} + multiset(b[..j] + b[j + 1..])
  {
    hide Total;
    var front, x, back := b[..j], b[j], b[j + 1..];
    SplitAround(b, j);
    TotalConcat(front, [x] + back);
    TotalConcat([x], back);
    TotalOne(x);
    TotalConcat(front, back);
    SplitMultiset(front, x, back);
  }

  lemma {:induction false} TotalPermuted(a: seq<int>, b: seq<int>)
    requires multiset(a) == multiset(b)
    ensures Total(a) == Total(b)
  {
    hide Total;
    if a == [] {
      assert |multiset(b)| == 0;
    } else {
      var j := IndexOf(b, a[0]);
      var tail, rest := a[1..], b[..j] + b[j + 1..];
      TotalWithout(b, j);
      TotalWithout(a, 0);
      ConcatEmpty(tail);
      SameRest(multiset(tail), multiset(rest), a[0]);
      TotalPermuted(tail, rest);
    }
  }

  lemma IndexOf(b: seq<int>, x: int) returns (j: nat)
    requires x in multiset(b)
    ensures j < |b| && b[j] == x
  {
    j :| j < |b| && b[j] == x;
  }

  lemma SameRest(a: multiset<int>, b: multiset<int>, x: int)
    requires multiset{x} + a == multiset{x} + b
    ensures a == b
  {
    assert a == (multiset{x} + a) - multiset{x};
    assert b == (multiset{x} + b) - multiset{x};
  }

  // ---------- partial sums ----------

  predicate Within(range: (u64, u64), size: nat) {
    range.0 <= range.1 < size
  }

  // What one worker adds: its sum, modulo 2^64.
  function Partial(numbers: seq<u64>, range: (u64, u64)): u64
    requires Within(range, |numbers|)
  {
    Total(numbers[range.0..range.1 + 1]) % TWO_64
  }

  predicate AllWithin(ranges: seq<(u64, u64)>, size: nat) {
    forall i :: 0 <= i < |ranges| ==> Within(ranges[i], size)
  }

  function Partials(numbers: seq<u64>, ranges: seq<(u64, u64)>): (r: seq<int>)
    requires AllWithin(ranges, |numbers|)
    ensures |r| == |ranges|
  {
    seq(|ranges|, i requires 0 <= i < |ranges| => Partial(numbers, ranges[i]))
  }

  // The ranges that the granulator hands out.
  function Ranges(elements: nat, hardware: nat, count: nat): (r: seq<(u64, u64)>)
    requires InRange(elements, hardware)
    ensures |r| == count
  {
    seq(count, k requires 0 <= k => ThreadRange(elements, hardware, k))
  }

  lemma {:induction false} PartialsOfCover(numbers: seq<u64>, hardware: nat, count: nat, end: nat)
    requires InRange(|numbers|, hardware) && end <= |numbers| && Covers(|numbers|, hardware, count, end)
    ensures AllWithin(Ranges(|numbers|, hardware, count), |numbers|)
    ensures Total(Partials(numbers, Ranges(|numbers|, hardware, count))) % TWO_64 == Total(numbers[..end]) % TWO_64
    decreases count
  {
    hide ThreadRange, Total;
    if count > 0 {
      var range := ThreadRange(|numbers|, hardware, count - 1);
      PartialsOfCover(numbers, hardware, count - 1, range.0);
      assert Ranges(|numbers|, hardware, count) == Ranges(|numbers|, hardware, count - 1) + [range];
      var before := Partials(numbers, Ranges(|numbers|, hardware, count - 1));
      assert Partials(numbers, Ranges(|numbers|, hardware, count)) == before + [Partial(numbers, range)];
      TotalConcat(before, [Partial(numbers, range)]);
      TotalOne(Partial(numbers, range));
      var part := numbers[range.0..range.1 + 1];
      assert numbers[..end] == numbers[..range.0] + part;
      TotalConcat(numbers[..range.0], part);
      AddMod(Total(before), Total(part) % TWO_64, TWO_64);
      AddMod(Total(numbers[..range.0]), Total(part) % TWO_64, TWO_64);
      AddMod(Total(part), Total(numbers[..range.0]), TWO_64);
    } else {
      assert numbers[..end] == [];
      assert Partials(numbers, Ranges(|numbers|, hardware, count)) == [];
    }
  }

  // When the granulator partitions the vector, the shared vector holds the partial sums in
  // some order, and every order gives the sum of the whole vector modulo 2^64.
  lemma AnyOrderGivesTheSum(numbers: seq<u64>, hardware: nat, items: seq<u64>)
    requires InRange(|numbers|, hardware)
    requires Covers(|numbers|, hardware, Threads(|numbers|, hardware), |numbers|)
    ensures AllWithin(Ranges(|numbers|, hardware, Threads(|numbers|, hardware)), |numbers|)
    ensures multiset(items) == multiset(Partials(numbers, Ranges(|numbers|, hardware, Threads(|numbers|, hardware))))
            ==> Total(items) % TWO_64 == Total(numbers) % TWO_64
  {
    hide Threads, Covers, Partials, Ranges;
    PartialsOfCover(numbers, hardware, Threads(|numbers|, hardware), |numbers|);
    assert numbers[..|numbers|] == numbers;
    var sums := Partials(numbers, Ranges(|numbers|, hardware, Threads(|numbers|, hardware)));
    if multiset(items) == multiset(sums) {
      TotalPermuted(items, sums);
    }
  }

  // ---------- the code ----------

  class MTVector {
    var items: seq<u64>

    constructor ()
      ensures items == []
    {
      items := [];
    }

    method Add(t: u64)
      modifies this
      ensures items == old(items) + [t]
    {
      items := items + [t];
    }
  }

  method Work(mtv: MTVector, numbers: seq<u64>, range: (u64, u64))
    requires Within(range, |numbers|)
    modifies mtv
    ensures mtv.items == old(mtv.items) + [Partial(numbers, range)]
  {
    var sum: u64 := 0;
    var i := range.0;
    assert numbers[range.0..i] == [];
    while i <= range.1
      invariant range.0 <= i <= range.1 + 1 && mtv.items == old(mtv.items)
      invariant sum == Total(numbers[range.0..i]) % TWO_64
    {
      assert numbers[range.0..i + 1] == numbers[range.0..i] + [numbers[i]];
      TotalConcat(numbers[range.0..i], [numbers[i]]);
      TotalOne(numbers[i]);
      AddMod(Total(numbers[range.0..i]), numbers[i], TWO_64);
      sum := (sum + numbers[i]) % TWO_64;
      i := i + 1;
    }
    mtv.Add(sum);
  }

  // The granulator is asked once per thread; each worker gets its range by value.
  method HandOut(elements: nat, hardware: nat) returns (ranges: seq<(u64, u64)>)
    requires InRange(elements, hardware)
    ensures ranges == Ranges(elements, hardware, Threads(elements, hardware))
  {
    hide Range, Threads, Grain;
    var suggestion := new Granulator(elements, hardware);
    ranges := [];
    ThreadsFit(elements, hardware);
    for i := 0 to suggestion.numThreads
      invariant suggestion.step == i && suggestion.grain == Grain(elements, hardware)
      invariant ranges == Ranges(elements, hardware, i)
    {
      var range := suggestion.Step();
      ranges := ranges + [range];
    }
  }

  lemma ThreadsFit(elements: nat, hardware: nat)
    requires InRange(elements, hardware)
    ensures Threads(elements, hardware) < TWO_64 - 1
  {}

  method FinalSum(items: seq<u64>) returns (finalSum: u64)
    ensures finalSum == Total(items) % TWO_64
  {
    finalSum := 0;
    for i := 0 to |items|
      invariant finalSum == Total(items[..i]) % TWO_64
    {
      assert items[..i + 1] == items[..i] + [items[i]];
      TotalConcat(items[..i], [items[i]]);
      TotalOne(items[i]);
      AddMod(Total(items[..i]), items[i], TWO_64);
      finalSum := (finalSum + items[i]) % TWO_64;
    }
    assert items[..|items|] == items;
  }

  // The threads run in any order: each turn picks one that has not yet added its sum.
  method RunThreads(mtVector: MTVector, numbers: seq<u64>, ranges: seq<(u64, u64)>)
    requires AllWithin(ranges, |numbers|) && mtVector.items == []
    modifies mtVector
    ensures multiset(mtVector.items) == multiset(Partials(numbers, ranges))
  {
    hide Partial, Partials, Within;
    var threads := ranges;
    while threads != []
      invariant AllWithin(threads, |numbers|)
      invariant multiset(mtVector.items) + multiset(Partials(numbers, threads)) == multiset(Partials(numbers, ranges))
      decreases |threads|
    {
      var j: nat :| j < |threads|;
      PartialsWithout(numbers, threads, j);
      Work(mtVector, numbers, threads[j]);
      threads := threads[..j] + threads[j + 1..];
    }
    assert |Partials(numbers, threads)| == 0;
  }

  method ParallelSum(numbers: seq<u64>, hardware: nat) returns (finalSum: u64)
    requires InRange(|numbers|, hardware)
    requires Divides(|numbers|, hardware)
    ensures finalSum == Total(numbers) % TWO_64
  {
    hide Total, Partials, Ranges, Covers, Threads, AllWithin;
    StepsPartition(|numbers|, hardware);
    AnyOrderGivesTheSum(numbers, hardware, []);
    var ranges := HandOut(|numbers|, hardware);
    var mtVector := new MTVector();
    RunThreads(mtVector, numbers, ranges);
    AnyOrderGivesTheSum(numbers, hardware, mtVector.items);
    finalSum := FinalSum(mtVector.items);
  }

  lemma PartialsWithout(numbers: seq<u64>, ranges: seq<(u64, u64)>, j: nat)
    requires AllWithin(ranges, |numbers|) && j < |ranges|
    ensures AllWithin(ranges[..j] + ranges[j + 1..], |numbers|)
    ensures multiset(Partials(numbers, ranges))
         == multiset{Partial(numbers, ranges[j])} + multiset(Partials(numbers, ranges[..j] + ranges[j + 1..]))
  {
    hide Partial;
    var all, rest := Partials(numbers, ranges), ranges[..j] + ranges[j + 1..];
    assert Partials(numbers, rest) == all[..j] + all[j + 1..];
    TotalWithout(all, j);
  }

  // The vector that main generates.
  function Counting(n: nat): seq<u64>
    requires n < TWO_64
  {
    seq(n, i requires 0 <= i < n => i + 1)
  }

  // n(n+1)/2.
  function Triangular(n: nat): nat {
    n * (n + 1) / 2
  }

  lemma TriangularGrows(n: nat)
    ensures Triangular(0) == 0 && (n > 0 ==> Triangular(n) == Triangular(n - 1) + n)
  {
    if n > 0 {
      assert n * (n + 1) == (n - 1) * n + 2 * n;
    }
  }

  lemma CountingGrows(n: nat)
    requires n < TWO_64
    ensures Counting(0) == [] && (n + 1 < TWO_64 ==> Counting(n + 1) == Counting(n) + [n + 1])
  {}

  lemma {:induction false} CountingTotal(n: nat)
    requires n < TWO_64
    ensures Total(Counting(n)) == Triangular(n)
  {
    hide Total, Counting, Triangular;
    CountingGrows(0);
    TriangularGrows(n);
    if n > 0 {
      CountingTotal(n - 1);
      CountingGrows(n - 1);
      TotalConcat(Counting(n - 1), [n]);
      TotalOne(n);
    } else {
      TotalNothing();
    }
  }

  // main: generates the numbers 1, 2, ..., n and adds them up in parallel.
  method SumOfCounting(n: u64, hardware: nat) returns (finalSum: u64)
    requires InRange(n, hardware) && Divides(n, hardware)
    ensures finalSum == Triangular(n) % TWO_64
  {
    hide Total, Counting, Divides, Triangular;
    var numbers: seq<u64> := [];
    CountingGrows(0);
    var counter: u64 := 1;
    while |numbers| < n
      invariant |numbers| <= n && counter == (|numbers| + 1) % TWO_64
      invariant numbers == Counting(|numbers|)
    {
      CountingGrows(|numbers|);
      numbers := numbers + [counter];
      counter := Increment64(counter);
    }
    CountingTotal(n);
    finalSum := ParallelSum(numbers, hardware);
  }
}
