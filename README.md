# optimaize-test counter, modelled in Dafny

`OptimaizeCounterImpl` is a running-statistics counter. Callers `push` batches
of nullable `Integer`s into it. At any time they can ask for the smallest value
ever pushed, the largest, and the average. The average is a `BigDecimal` with
two fractional digits, rounded `HALF_UP`. Each statistic lives in its own
`AtomicReference` cell: `LARGEST`, `SMALLEST` and `AVERAGE`. The `AVERAGE` cell
holds an `AvearageContainer`, a pair of a count and a sum. A compare-and-swap
retry loop updates each cell.

This project models that class sequentially.

- `wrappers.dfy` (`Wrappers`): `Option`, which stands for a Java `null` or an
  empty `Optional`.
- `decimal.dfy` (`Decimals`): the one `BigDecimal` operation the counter uses.
  It is `divide(divisor, scale, HALF_UP)` on the scaled integer
  `sum * 10^scale`. `RoundHalfUp` computes the result. `IsHalfUp` defines
  HALF_UP independently: the nearest integer, with ties away from zero. The
  lemmas prove that the two agree and that the result is unique.
- `seqs.dfy` (`Seqs`): small facts about slicing sequences.
- `counter.dfy` (`Counter`):
  - The specification of what the cells hold after a sequence of values:
    `SeqMin`, `SeqMax`, `AverageOf` and `ReadingsOf`. Each is defined as the
    left-to-right accumulation the counter performs.
  - The class `OptimaizeCounterImpl`. Its real fields are the three cells. A
    ghost field `pushed` records every value taken in. `Valid()` ties the cells
    to `pushed`.
  - `ReadAfterPushes`: a client that pushes several batches and reads the
    counter.

## Model

| member | source | states |
|---|---|---|
| Counter.OptimaizeCounterImpl.constructor | src/main/java/org/terekhpp/optimaize/counter/impl/OptimaizeCounterImpl.java:17-19 | A new counter has all three cells null and has taken in no value. |
| Counter.OptimaizeCounterImpl.Push | src/main/java/org/terekhpp/optimaize/counter/impl/OptimaizeCounterImpl.java:26-38 | A null batch changes nothing. Otherwise every non-null value is taken in, in order, and null elements are skipped. The count grows by exactly the number of non-null values and the sum by exactly their total. The three cells stay consistent with everything pushed. |
| Counter.OptimaizeCounterImpl.Accept | src/main/java/org/terekhpp/optimaize/counter/impl/OptimaizeCounterImpl.java:30-37 | One turn of the loop for a non-null value runs the three cell updates. After it, every cell also accounts for that value. |
| Counter.OptimaizeCounterImpl.CompareAndSetLargest | src/main/java/org/terekhpp/optimaize/counter/impl/OptimaizeCounterImpl.java:40-45 | The largest cell becomes `num` exactly when it was null or `num` is greater. Otherwise it keeps its value. No other cell changes. |
| Counter.OptimaizeCounterImpl.CompareAndSetSmallest | src/main/java/org/terekhpp/optimaize/counter/impl/OptimaizeCounterImpl.java:47-52 | The smallest cell becomes `num` exactly when it was null or `num` is smaller. Otherwise it keeps its value. No other cell changes. |
| Counter.OptimaizeCounterImpl.CalcAvg | src/main/java/org/terekhpp/optimaize/counter/impl/OptimaizeCounterImpl.java:54-69 | A null average cell becomes (1, num). Otherwise the count goes up by one and `num` is added to the sum. No other cell changes. |
| Counter.OptimaizeCounterImpl.GetSmallest | src/main/java/org/terekhpp/optimaize/counter/impl/OptimaizeCounterImpl.java:74-77 | The result is empty exactly when nothing was pushed. Otherwise it is a pushed value and no pushed value is smaller. |
| Counter.OptimaizeCounterImpl.GetLargest | src/main/java/org/terekhpp/optimaize/counter/impl/OptimaizeCounterImpl.java:82-85 | The result is empty exactly when nothing was pushed. Otherwise it is a pushed value and no pushed value is larger. |
| Counter.OptimaizeCounterImpl.GetAverage | src/main/java/org/terekhpp/optimaize/counter/impl/OptimaizeCounterImpl.java:90-98 | The result is empty exactly when nothing was pushed. Otherwise it has scale 2, and its unscaled value is sum*100/count rounded HALF_UP (nearest, ties away from zero). |
| Counter.OptimaizeCounterImpl.CellsAgree | src/main/java/org/terekhpp/optimaize/counter/impl/OptimaizeCounterImpl.java:26-98 | The three getters are empty together. When they are present, every pushed value lies between the smallest and the largest. |
| Counter.OptimaizeCounterImpl.AverageWithinBounds | src/main/java/org/terekhpp/optimaize/counter/impl/OptimaizeCounterImpl.java:90-98 | Rounding never takes the average outside the range from smallest*100 to largest*100 (at scale 2). |
| Counter.OptimaizeCounterImpl.ReadMatches | src/main/java/org/terekhpp/optimaize/counter/impl/OptimaizeCounterImpl.java:74-98 | The getters return exactly the minimum, the maximum and the rounded mean of the values pushed. |
| Counter.ReadAfterPushes | src/test/java/org/terekhpp/optimaize/counter/OptimaizeCounterImplTest.java:94-101 | Pushing batches one after another into a new counter gives the readings of the concatenation of their non-null values. Null batches contribute nothing. |
| Counter.SeqMinIsLeast | src/main/java/org/terekhpp/optimaize/counter/impl/OptimaizeCounterImpl.java:47-52 | Repeated compare-and-set-smallest leaves a member of the values that is at most every value. |
| Counter.SeqMaxIsGreatest | src/main/java/org/terekhpp/optimaize/counter/impl/OptimaizeCounterImpl.java:40-45 | Repeated compare-and-set-largest leaves a member of the values that is at least every value. |
| Counter.SeqMinSnoc | src/main/java/org/terekhpp/optimaize/counter/impl/OptimaizeCounterImpl.java:47-52 | Taking in one more value changes the minimum exactly by the compare-and-set-smallest rule. |
| Counter.SeqMaxSnoc | src/main/java/org/terekhpp/optimaize/counter/impl/OptimaizeCounterImpl.java:40-45 | Taking in one more value changes the maximum exactly by the compare-and-set-largest rule. |
| Counter.AverageOfSnoc | src/main/java/org/terekhpp/optimaize/counter/impl/OptimaizeCounterImpl.java:54-69 | Taking in one more value changes the count-and-sum pair exactly as `calcAvg` does. |
| Counter.NonNullMembers | src/main/java/org/terekhpp/optimaize/counter/impl/OptimaizeCounterImpl.java:30-33 | A value is accepted from a batch exactly when it occurs in the batch as a non-null element. |
| Counter.NonNullConcat | src/main/java/org/terekhpp/optimaize/counter/impl/OptimaizeCounterImpl.java:30-37 | Filtering out nulls distributes over concatenation, so splitting a batch in two accepts the same values. |
| Counter.AcceptedAllConcat | src/test/java/org/terekhpp/optimaize/counter/OptimaizeCounterImplTest.java:94-98 | The values accepted from two series of pushes, one after the other, are the concatenation of each series' values. |
| Counter.SumConcat | src/main/java/org/terekhpp/optimaize/counter/impl/OptimaizeCounterImpl.java:64-65 | The sum of a concatenation is the sum of the sums. |
| Counter.SumPermutation | src/main/java/org/terekhpp/optimaize/counter/impl/OptimaizeCounterImpl.java:64-65 | The sum depends only on the multiset of values, not on their order. |
| Counter.AcceptedAllPermutation | src/test/java/org/terekhpp/optimaize/counter/OptimaizeCounterImplTest.java:133-158 | Pushing the same batches in any order accepts the same multiset of values. |
| Counter.SumBounds | src/main/java/org/terekhpp/optimaize/counter/impl/OptimaizeCounterImpl.java:64-65 | When every value lies in [lo, hi], the sum lies between count*lo and count*hi. |
| Counter.SameMultisetSameCells | src/main/java/org/terekhpp/optimaize/counter/impl/OptimaizeCounterImpl.java:40-69 | Minimum, maximum, count-and-sum and all readings depend only on the multiset of values pushed. |
| Counter.BatchOrderIrrelevant | src/test/java/org/terekhpp/optimaize/counter/OptimaizeCounterImplTest.java:133-162 | Batches pushed in any order give the same smallest, largest and average. |
| Decimals.Divide | src/main/java/org/terekhpp/optimaize/counter/impl/OptimaizeCounterImpl.java:95-96 | Dividing at a given scale yields that scale. Its unscaled value is the HALF_UP rounding of n*10^scale/d. |
| Decimals.RoundHalfUpIsNearest | src/main/java/org/terekhpp/optimaize/counter/impl/OptimaizeCounterImpl.java:21 | The computed quotient is within half a unit of the exact one. An exact tie goes away from zero. |
| Decimals.HalfUpNonNegative | src/main/java/org/terekhpp/optimaize/counter/impl/OptimaizeCounterImpl.java:21 | For non-negative numerators, floor((2n+d)/(2d)) is the HALF_UP rounding. |
| Decimals.HalfUpNegate | src/main/java/org/terekhpp/optimaize/counter/impl/OptimaizeCounterImpl.java:21 | HALF_UP is symmetric: r rounds n exactly when -r rounds -n. |
| Decimals.HalfUpUniqueOrdered | src/main/java/org/terekhpp/optimaize/counter/impl/OptimaizeCounterImpl.java:21 | Two HALF_UP roundings of the same quotient with lo <= hi are equal. |
| Decimals.HalfUpUnique | src/main/java/org/terekhpp/optimaize/counter/impl/OptimaizeCounterImpl.java:21 | A quotient has at most one HALF_UP rounding. |
| Decimals.RoundHalfUpCharacterized | src/main/java/org/terekhpp/optimaize/counter/impl/OptimaizeCounterImpl.java:21 | The computed quotient equals r exactly when r is the HALF_UP rounding. |
| Decimals.RoundHalfUpExact | src/test/java/org/terekhpp/optimaize/counter/OptimaizeCounterImplTest.java:29-38 | An exact quotient is returned unchanged. |
| Decimals.RoundHalfUpOdd | src/main/java/org/terekhpp/optimaize/counter/impl/OptimaizeCounterImpl.java:21 | Rounding a negated quotient gives the negated rounding. |
| Decimals.RoundHalfUpWithin | src/main/java/org/terekhpp/optimaize/counter/impl/OptimaizeCounterImpl.java:95-96 | A quotient between two integers rounds to a value between them. |
| Decimals.DivideExamples | src/test/java/org/terekhpp/optimaize/counter/OptimaizeCounterImplTest.java:29-38 | Worked cases: 5000050000/100001 is 50000.00; 1/8 is 0.13; -1/8 is -0.13; 2/3 is 0.67. |

## Left out

- The compare-and-swap retry loops and `AtomicReference` are left out. Run by one thread, each loop ends after one pass. Each loop is therefore modelled as the conditional assignment that the pass performs.
- Concurrency is not modelled:
  - threads pushing at the same time;
  - interleavings between the three cells;
  - the fact that a reader can see the cells from different moments.
  The model is the sequential meaning of the class.
- The defensive copy by Guava's `ImmutableList` is not modelled. A Dafny `seq` is already immutable.
- `BigDecimal` and `BigInteger` are not modelled as library types. The count and the sum are unbounded integers. The only `BigDecimal` operation modelled is `divide` with a scale and `HALF_UP`, on scaled integers.
- Java's 32-bit `Integer` range is not modelled. The code does no arithmetic on an `int`: sums and counts are `BigInteger`.
- `AvearageContainer` fields that are null: a container with a null count or sum is treated like a null cell. The model merges both into `None`. No code path creates such a container.
- The `OptimaizeCounter` interface and its thread-safety promise are not part of this model.
- The getters are idempotent and change nothing. In the model this holds by construction, because they are functions that only read the object.
- Counter.OptimaizeCounterImpl.Accept: this helper does not exist in the source. It groups the three calls in the loop body of `push`.
