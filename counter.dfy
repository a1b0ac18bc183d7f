/**
 * The running-statistics counter: batches of nullable integers are pushed,
 * and the smallest, the largest and the average (to two fractional digits,
 * HALF_UP) of every value pushed so far can be read back.
 *
 * Each cell of the counter is updated in the source by a compare-and-swap
 * retry loop; run sequentially, each loop is one conditional assignment,
 * which is what the helper methods below perform.
 */
module Counter {
  import opened Wrappers
  import opened Decimals
  import opened Seqs

  /** The scale of the average, DEFAULT_SCALE. */
  const DefaultScale: nat := 2

  /** The pair held in the AVERAGE cell: how many values, and their total. */
  datatype AverageContainer = AverageContainer(numbersCount: nat, sum: int)

  /** The three readings of the counter, in one value. */
  datatype Readings = Readings(smallest: Option<int>, largest: Option<int>, average: Option<Decimal>)

  // ---------------------------------------------------------------------------
  // Specification: statistics of a sequence of values, each defined as the
  // left-to-right accumulation the counter performs.

  /** The values of a batch that are not null, in order. */
  function NonNull(batch: seq<Option<int>>): (vals: seq<int>)
    ensures |vals| <= |batch|
  {
    if batch == [] then []
    else
      var last := batch[|batch| - 1];
      NonNull(batch[..|batch| - 1]) + if last.Some? then [last.value] else []
  }

  /** What a call of `push` accepts: nothing for a null batch. */
  function Accepted(nums: Option<seq<Option<int>>>): seq<int>
  {
    if nums.None? then [] else NonNull(nums.value)
  }

  /** Every value accepted from a series of `push` calls, in order. */
  function AcceptedAll(batches: seq<Option<seq<Option<int>>>>): seq<int>
  {
    if batches == [] then [] else AcceptedAll(batches[..|batches| - 1]) + Accepted(batches[|batches| - 1])
  }

  function Sum(s: seq<int>): int
  {
    if s == [] then 0 else Sum(s[..|s| - 1]) + s[|s| - 1]
  }

  /**
   * The smallest value of `s`, or None when `s` is empty: the SMALLEST cell
   * after the values of `s` went through `compareAndSetSmallest` in turn.
   */
  function SeqMin(s: seq<int>): (m: Option<int>)
    ensures m.None? <==> s == []
  {
    if s == [] then None
    else
      var rest, x := SeqMin(s[..|s| - 1]), s[|s| - 1];
      if rest.None? || x < rest.value then Some(x) else rest
  }

  /**
   * The largest value of `s`, or None when `s` is empty: the LARGEST cell
   * after the values of `s` went through `compareAndSetLarges` in turn.
   */
  function SeqMax(s: seq<int>): (m: Option<int>)
    ensures m.None? <==> s == []
  {
    if s == [] then None
    else
      var rest, x := SeqMax(s[..|s| - 1]), s[|s| - 1];
      if rest.None? || x > rest.value then Some(x) else rest
  }

  /** The AVERAGE cell that a sequence of values leaves behind. */
  function AverageOf(s: seq<int>): Option<AverageContainer>
  {
    if s == [] then None else Some(AverageContainer(|s|, Sum(s)))
  }

  /** What the getters of a counter fed exactly the values `s` return. */
  function ReadingsOf(s: seq<int>): Readings
  {
    Readings(SeqMin(s), SeqMax(s), if s == [] then None else Some(Divide(Sum(s), |s|, DefaultScale)))
  }

  // ---------------------------------------------------------------------------
  // Lemmas about the specification

  /** The minimum is one of the values and no value is smaller. */
  lemma {:induction false} SeqMinIsLeast(s: seq<int>)
    ensures SeqMin(s).Some? ==> SeqMin(s).value in s && forall x :: x in s ==> SeqMin(s).value <= x
  {
    if s != [] {
      var init := s[..|s| - 1];
      DropLast(s);
      SeqMinIsLeast(init);
    }
  }

  /** The maximum is one of the values and no value is larger. */
  lemma {:induction false} SeqMaxIsGreatest(s: seq<int>)
    ensures SeqMax(s).Some? ==> SeqMax(s).value in s && forall x :: x in s ==> x <= SeqMax(s).value
  {
    if s != [] {
      var init := s[..|s| - 1];
      DropLast(s);
      SeqMaxIsGreatest(init);
    }
  }

  /** Appending one element to a batch appends its value when it is not null. */
  lemma NonNullSnoc(batch: seq<Option<int>>, e: Option<int>)
    ensures NonNull(batch + [e]) == NonNull(batch) + if e.Some? then [e.value] else []
  {
    var t := batch + [e];
    assert t[..|t| - 1] == batch;
  }

  lemma AcceptedAllSnoc(batches: seq<Option<seq<Option<int>>>>, nums: Option<seq<Option<int>>>)
    ensures AcceptedAll(batches + [nums]) == AcceptedAll(batches) + Accepted(nums)
  {
    var t := batches + [nums];
    assert t[..|t| - 1] == batches;
  }

  lemma SumSnoc(s: seq<int>, x: int)
    ensures Sum(s + [x]) == Sum(s) + x
  {
    var t := s + [x];
    assert t[..|t| - 1] == s;
  }

  /** A value is accepted exactly when it occurs, non-null, in the batch. */
  lemma {:induction false} NonNullMembers(batch: seq<Option<int>>)
    ensures forall x :: x in NonNull(batch) <==> Some(x) in batch
  {
    if batch != [] {
      var init, last := batch[..|batch| - 1], batch[|batch| - 1];
      DropLast(batch);
      NonNullMembers(init);
      NonNullSnoc(init, last);
    }
  }

  /** The loop of `push` takes in one more element of the batch. */
  lemma NonNullPrefix(batch: seq<Option<int>>, i: nat)
    requires i < |batch|
    ensures NonNull(batch[..i + 1]) == NonNull(batch[..i]) + if batch[i].Some? then [batch[i].value] else []
  {
    TakeNext(batch, i);
    NonNullSnoc(batch[..i], batch[i]);
  }

  /** Splitting a batch in two accepts the same values in the same order. */
  lemma {:induction false} NonNullConcat(a: seq<Option<int>>, b: seq<Option<int>>)
    ensures NonNull(a + b) == NonNull(a) + NonNull(b)
  {
    if b == [] {
      ConcatEmpty(a);
    } else {
      var init, last := b[..|b| - 1], b[|b| - 1];
      var tail := if last.Some? then [last.value] else [];
      calc {
        NonNull(a + b);
        == { ConcatDropLast(a, b); }
        NonNull((a + init) + [last]);
        == { NonNullSnoc(a + init, last); }
        NonNull(a + init) + tail;
        == { NonNullConcat(a, init); }
        NonNull(a) + NonNull(init) + tail;
        == { DropLast(b); NonNullSnoc(init, last); }
        NonNull(a) + NonNull(b);
      }
    }
  }

  lemma {:induction false} AcceptedAllConcat(a: seq<Option<seq<Option<int>>>>, b: seq<Option<seq<Option<int>>>>)
    ensures AcceptedAll(a + b) == AcceptedAll(a) + AcceptedAll(b)
  {
    if b == [] {
      ConcatEmpty(a);
    } else {
      var init, last := b[..|b| - 1], b[|b| - 1];
      calc {
        AcceptedAll(a + b);
        == { ConcatDropLast(a, b); }
        AcceptedAll((a + init) + [last]);
        == { AcceptedAllSnoc(a + init, last); }
        AcceptedAll(a + init) + Accepted(last);
        == { AcceptedAllConcat(a, init); }
        AcceptedAll(a) + AcceptedAll(init) + Accepted(last);
        == { DropLast(b); AcceptedAllSnoc(init, last); }
        AcceptedAll(a) + AcceptedAll(b);
      }
    }
  }

  lemma {:induction false} SumConcat(a: seq<int>, b: seq<int>)
    ensures Sum(a + b) == Sum(a) + Sum(b)
  {
    if b == [] {
      ConcatEmpty(a);
    } else {
      var init, last := b[..|b| - 1], b[|b| - 1];
      calc {
        Sum(a + b);
        == { ConcatDropLast(a, b); }
        Sum((a + init) + [last]);
        == { SumSnoc(a + init, last); }
        Sum(a + init) + last;
        == { SumConcat(a, init); }
        Sum(a) + Sum(init) + last;
        == { DropLast(b); SumSnoc(init, last); }
        Sum(a) + Sum(b);
      }
    }
  }

  /** Removing the element at `j` from `b` and the last element from `a` keeps equal multisets equal. */
  lemma MultisetRemove<T>(a: seq<T>, b: seq<T>, j: nat)
    requires multiset(a) == multiset(b) && a != [] && j < |b| && b[j] == a[|a| - 1]
    ensures multiset(a[..|a| - 1]) == multiset(b[..j] + b[j + 1..])
  {
    var init, rest := a[..|a| - 1], b[..j] + b[j + 1..];
    assert multiset(a) == multiset(init) + multiset{b[j]} by {
      DropLast(a);
    }
    assert multiset(b) == multiset(rest) + multiset{b[j]} by {
      SplitAt(b, j);
      assert multiset((b[..j] + [b[j]]) + b[j + 1..]) == multiset(b[..j]) + multiset{b[j]} + multiset(b[j + 1..]);
    }
    assert multiset(init) == multiset(a) - multiset{b[j]};
  }

  /** Taking the element at `j` out of `b` takes exactly that element out of the sum. */
  lemma SumRemove(b: seq<int>, j: nat)
    requires j < |b|
    ensures Sum(b) == Sum(b[..j] + b[j + 1..]) + b[j]
  {
    var left, right := b[..j], b[j + 1..];
    calc {
      Sum(b);
      == { SplitAt(b, j); }
      Sum((left + [b[j]]) + right);
      == { SumConcat(left + [b[j]], right); }
      Sum(left + [b[j]]) + Sum(right);
      == { SumSnoc(left, b[j]); }
      Sum(left) + b[j] + Sum(right);
      == { SumConcat(left, right); }
      Sum(left + right) + b[j];
    }
  }

  /** Taking the batch at `j` out of `b` takes exactly its values out of the accepted multiset. */
  lemma AcceptedAllRemove(b: seq<Option<seq<Option<int>>>>, j: nat)
    requires j < |b|
    ensures multiset(AcceptedAll(b)) == multiset(AcceptedAll(b[..j] + b[j + 1..])) + multiset(Accepted(b[j]))
  {
    var left, right := b[..j], b[j + 1..];
    calc {
      multiset(AcceptedAll(b));
      == { SplitAt(b, j); }
      multiset(AcceptedAll((left + [b[j]]) + right));
      == { AcceptedAllConcat(left + [b[j]], right); }
      multiset(AcceptedAll(left + [b[j]]) + AcceptedAll(right));
      == { AcceptedAllSnoc(left, b[j]); }
      multiset(AcceptedAll(left) + Accepted(b[j]) + AcceptedAll(right));
      == { AcceptedAllConcat(left, right); }
      multiset(AcceptedAll(left + right)) + multiset(Accepted(b[j]));
    }
  }

  /** The sum does not depend on the order of the values. */
  lemma {:induction false} SumPermutation(a: seq<int>, b: seq<int>)
    requires multiset(a) == multiset(b)
    ensures Sum(a) == Sum(b)
  {
    if a == [] {
      assert |b| == |multiset(b)| == 0;
    } else {
      var init, last := a[..|a| - 1], a[|a| - 1];
      assert last in multiset(b) by {
        assert last in a;
      }
      var j :| 0 <= j < |b| && b[j] == last;
      var rest := b[..j] + b[j + 1..];
      MultisetRemove(a, b, j);
      SumPermutation(init, rest);
      SumRemove(b, j);
    }
  }

  /** Pushing the same batches in another order accepts the same multiset of values. */
  lemma {:induction false} AcceptedAllPermutation(a: seq<Option<seq<Option<int>>>>, b: seq<Option<seq<Option<int>>>>)
    requires multiset(a) == multiset(b)
    ensures multiset(AcceptedAll(a)) == multiset(AcceptedAll(b))
  {
    if a == [] {
      assert |b| == |multiset(b)| == 0;
    } else {
      var init, last := a[..|a| - 1], a[|a| - 1];
      assert last in multiset(b) by {
        assert last in a;
      }
      var j :| 0 <= j < |b| && b[j] == last;
      var rest := b[..j] + b[j + 1..];
      MultisetRemove(a, b, j);
      AcceptedAllPermutation(init, rest);
      AcceptedAllRemove(b, j);
    }
  }

  /** Every value lies between `lo` and `hi`, so the sum lies between count times each. */
  lemma {:induction false} SumBounds(s: seq<int>, lo: int, hi: int)
    requires forall x :: x in s ==> lo <= x <= hi
    ensures |s| * lo <= Sum(s) <= |s| * hi
  {
    if s != [] {
      var init, last := s[..|s| - 1], s[|s| - 1];
      assert last in s;
      assert forall x :: x in init ==> x in s;
      SumBounds(init, lo, hi);
      assert |s| * lo == |init| * lo + lo && |s| * hi == |init| * hi + hi;
    }
  }

  /** One more value moves the minimum exactly as `compareAndSetSmallest` does. */
  lemma SeqMinSnoc(s: seq<int>, x: int)
    ensures SeqMin(s + [x]) == if SeqMin(s).None? || x < SeqMin(s).value then Some(x) else SeqMin(s)
  {
    var t := s + [x];
    assert t[..|t| - 1] == s;
  }

  /** One more value moves the maximum exactly as `compareAndSetLarges` does. */
  lemma SeqMaxSnoc(s: seq<int>, x: int)
    ensures SeqMax(s + [x]) == if SeqMax(s).None? || x > SeqMax(s).value then Some(x) else SeqMax(s)
  {
    var t := s + [x];
    assert t[..|t| - 1] == s;
  }

  /** One more value moves the AVERAGE cell exactly as `calcAvg` does. */
  lemma AverageOfSnoc(s: seq<int>, x: int)
    ensures AverageOf(s + [x]) == Some(AverageContainer(|s| + 1, Sum(s) + x))
  {
    SumSnoc(s, x);
  }

  /** Whatever the order of the batches, the readings are the same. */
  lemma BatchOrderIrrelevant(a: seq<Option<seq<Option<int>>>>, b: seq<Option<seq<Option<int>>>>)
    requires multiset(a) == multiset(b)
    ensures ReadingsOf(AcceptedAll(a)) == ReadingsOf(AcceptedAll(b))
  {
    AcceptedAllPermutation(a, b);
    SameMultisetSameCells(AcceptedAll(a), AcceptedAll(b));
  }

  /**
   * The cells depend only on the multiset of values pushed: not on the order
   * of the values, nor on how they were split into batches.
   */
  lemma SameMultisetSameCells(a: seq<int>, b: seq<int>)
    requires multiset(a) == multiset(b)
    ensures SeqMin(a) == SeqMin(b) && SeqMax(a) == SeqMax(b) && AverageOf(a) == AverageOf(b)
    ensures ReadingsOf(a) == ReadingsOf(b)
  {
    assert |a| == |multiset(a)| == |multiset(b)| == |b|;
    assert forall x :: x in a <==> x in b by {
      forall x ensures x in a <==> x in b {
        assert x in a <==> x in multiset(a);
        assert x in b <==> x in multiset(b);
      }
    }
    SeqMinIsLeast(a);
    SeqMinIsLeast(b);
    SeqMaxIsGreatest(a);
    SeqMaxIsGreatest(b);
    SumPermutation(a, b);
  }

  // ---------------------------------------------------------------------------
  // The counter

  class OptimaizeCounterImpl {
    /** The LARGEST, SMALLEST and AVERAGE cells; None stands for null. */
    var largest: Option<int>
    var smallest: Option<int>
    var average: Option<AverageContainer>
    /** Every non-null value pushed so far, in the order it was taken in. */
    ghost var pushed: seq<int>

    ghost predicate Valid()
      reads this
    {
      largest == SeqMax(pushed) && smallest == SeqMin(pushed) && average == AverageOf(pushed)
    }

    constructor ()
      ensures Valid() && pushed == []
      ensures largest == None && smallest == None && average == None
    {
      largest := None;
      smallest := None;
      average := None;
      pushed := [];
    }

    /** How many values the AVERAGE cell has counted. */
    function Count(): nat
      reads this
    {
      if average.None? then 0 else average.value.numbersCount
    }

    /** The total the AVERAGE cell holds. */
    function Total(): int
      reads this
    {
      if average.None? then 0 else average.value.sum
    }

    /**
     * Takes in every non-null value of the batch, in order; a null batch
     * changes nothing. The count grows by exactly the number of non-null
     * values, the total by exactly their sum, and the three cells keep
     * matching all values pushed.
     */
    method Push(nums: Option<seq<Option<int>>>)
      requires Valid()
      modifies this
      ensures Valid()
      ensures pushed == old(pushed) + Accepted(nums)
      ensures Count() == old(Count()) + |Accepted(nums)|
      ensures Total() == old(Total()) + Sum(Accepted(nums))
      ensures nums.None? ==> unchanged(this)
    {
      ghost var before := pushed;
      assert Count() == |before| && Total() == Sum(before);
      if nums.None? {
        return;
      }
      var batch := nums.value;
      var i := 0;
      while i < |batch|
        invariant 0 <= i <= |batch|
        invariant Valid()
        invariant pushed == old(pushed) + NonNull(batch[..i])
      {
        NonNullPrefix(batch, i);
        if batch[i].Some? {
          Accept(batch[i].value);
        }
        i := i + 1;
      }
      assert batch[..|batch|] == batch;
      SumConcat(before, Accepted(nums));
    }

    /**
     * One turn of the loop of `push` for a non-null value: the three cells
     * are updated in turn and all three now count `num` in.
     */
    method Accept(num: int)
      requires Valid()
      modifies this
      ensures Valid()
      ensures pushed == old(pushed) + [num]
    {
      ghost var after := pushed + [num];
      SeqMaxSnoc(pushed, num);
      CompareAndSetLargest(num);
      assert largest == SeqMax(after);
      SeqMinSnoc(pushed, num);
      CompareAndSetSmallest(num);
      assert smallest == SeqMin(after);
      AverageOfSnoc(pushed, num);
      assert pushed == [] ==> Sum(pushed) == 0;
      CalcAvg(num);
      assert average == AverageOf(after);
      pushed := after;
    }

    /** Replaces the largest value when the cell is null or `num` is larger. */
    method CompareAndSetLargest(num: int)
      modifies this`largest
      ensures largest == if old(largest).None? || num > old(largest).value then Some(num) else old(largest)
    {
      var prev := largest;
      if prev.None? || num > prev.value {
        largest := Some(num);
      }
    }

    /** Replaces the smallest value when the cell is null or `num` is smaller. */
    method CompareAndSetSmallest(num: int)
      modifies this`smallest
      ensures smallest == if old(smallest).None? || num < old(smallest).value then Some(num) else old(smallest)
    {
      var prev := smallest;
      if prev.None? || num < prev.value {
        smallest := Some(num);
      }
    }

    /** Replaces the count-and-sum pair by one with `num` counted in. */
    method CalcAvg(num: int)
      modifies this`average
      ensures average == if old(average).None? then Some(AverageContainer(1, num))
                         else Some(AverageContainer(old(average).value.numbersCount + 1, old(average).value.sum + num))
    {
      var prev := average;
      var next;
      if prev.None? {
        next := AverageContainer(1, num);
      } else {
        next := AverageContainer(prev.value.numbersCount + 1, prev.value.sum + num);
      }
      average := Some(next);
    }

    /** The smallest value ever pushed, or empty when none was. */
    function GetSmallest(): (r: Option<int>)
      reads this
      requires Valid()
      ensures r.None? <==> pushed == []
      ensures r.Some? ==> r.value in pushed && forall x :: x in pushed ==> r.value <= x
    {
      SeqMinIsLeast(pushed);
      smallest
    }

    /** The largest value ever pushed, or empty when none was. */
    function GetLargest(): (r: Option<int>)
      reads this
      requires Valid()
      ensures r.None? <==> pushed == []
      ensures r.Some? ==> r.value in pushed && forall x :: x in pushed ==> x <= r.value
    {
      SeqMaxIsGreatest(pushed);
      largest
    }

    /**
     * The mean of every value ever pushed, to two fractional digits rounded
     * HALF_UP, or empty when nothing was pushed.
     */
    function GetAverage(): (r: Option<Decimal>)
      reads this
      requires Valid()
      ensures r.None? <==> pushed == []
      ensures r.Some? ==> r.value.scale == DefaultScale
                          && IsHalfUp(Sum(pushed) * Pow10(DefaultScale), |pushed|, r.value.unscaled)
    {
      if average.None? then None
      else Some(Divide(average.value.sum, average.value.numbersCount, DefaultScale))
    }

    function Read(): Readings
      reads this
      requires Valid()
    {
      Readings(GetSmallest(), GetLargest(), GetAverage())
    }

    /**
     * The three readings are all empty or all present; when present, every
     * value pushed lies between the smallest and the largest.
     */
    lemma CellsAgree()
      requires Valid()
      ensures GetSmallest().None? <==> GetLargest().None?
      ensures GetSmallest().None? <==> GetAverage().None?
      ensures GetSmallest().Some? ==> GetSmallest().value <= GetLargest().value
      ensures GetSmallest().Some? ==>
                forall x :: x in pushed ==> GetSmallest().value <= x <= GetLargest().value
    {
      SeqMinIsLeast(pushed);
      SeqMaxIsGreatest(pushed);
    }

    /** The average, at scale 2, lies between the smallest and the largest values. */
    lemma AverageWithinBounds()
      requires Valid() && pushed != []
      ensures GetSmallest().value * Pow10(DefaultScale) <= GetAverage().value.unscaled
      ensures GetAverage().value.unscaled <= GetLargest().value * Pow10(DefaultScale)
    {
      var lo, hi, n := smallest.value, largest.value, |pushed|;
      SeqMinIsLeast(pushed);
      SeqMaxIsGreatest(pushed);
      SumBounds(pushed, lo, hi);
      assert Pow10(DefaultScale) == 100;
      assert (lo * 100) * n == (n * lo) * 100;
      assert (hi * 100) * n == (n * hi) * 100;
      RoundHalfUpCharacterized(Sum(pushed) * 100, n, GetAverage().value.unscaled);
      RoundHalfUpWithin(Sum(pushed) * 100, n, lo * 100, hi * 100);
    }

    /** The getters report the statistics of the values pushed so far. */
    lemma ReadMatches()
      requires Valid()
      ensures Read() == ReadingsOf(pushed)
    {
    }
  }

  /**
   * A caller pushes the batches one after the other into a new counter and
   * then reads it: the readings are those of the single sequence of every
   * non-null value of every non-null batch.
   */
  method ReadAfterPushes(batches: seq<Option<seq<Option<int>>>>) returns (r: Readings)
    ensures r == ReadingsOf(AcceptedAll(batches))
  {
    var counter := new OptimaizeCounterImpl();
    var i := 0;
    while i < |batches|
      invariant 0 <= i <= |batches|
      invariant counter.Valid()
      invariant counter.pushed == AcceptedAll(batches[..i])
    {
      TakeNext(batches, i);
      AcceptedAllSnoc(batches[..i], batches[i]);
      counter.Push(batches[i]);
      i := i + 1;
    }
    assert batches[..i] == batches;
    r := counter.Read();
    counter.ReadMatches();
  }
}
