/** The threshold partition (`value <= limit` to the smaller side, the rest to the larger side) and the
    weighted entropy of that partition, `totalEntropyOfAttribute`. */
module Split {
  import opened Samples
  import opened LabelEntropy

  datatype Sides = Sides(smaller: seq<Sample>, larger: seq<Sample>)

  /** The two lists the partition loop pushes into, each in input order. */
  function Partition(samples: seq<Sample>, index: nat, limit: real): (sides: Sides)
    ensures |sides.smaller| + |sides.larger| == |samples|
  {
    if samples == [] then Sides([], [])
    else
      var sides := Partition(samples[..|samples| - 1], index, limit);
      var s := samples[|samples| - 1];
      if AtMost(s, index, limit) then Sides(sides.smaller + [s], sides.larger)
      else Sides(sides.smaller, sides.larger + [s])
  }

  /** The partition loop, written out both in `totalEntropyOfAttribute` and in `decisionTree`. */
  method SplitAt(samples: seq<Sample>, index: nat, limit: real) returns (smaller: seq<Sample>, larger: seq<Sample>)
    ensures Sides(smaller, larger) == Partition(samples, index, limit)
  {
    smaller, larger := [], [];
    for j := 0 to |samples|
      invariant Sides(smaller, larger) == Partition(samples[..j], index, limit)
    {
      assert samples[..j + 1][..j] == samples[..j];
      if AtMost(samples[j], index, limit) {
        smaller := smaller + [samples[j]];
      } else {
        larger := larger + [samples[j]];
      }
    }
    assert samples[..|samples|] == samples;
  }

  /** The two sides together hold exactly the input samples, each as often as the input does. */
  lemma {:induction false} PartitionPermutation(samples: seq<Sample>, index: nat, limit: real)
    ensures multiset(Partition(samples, index, limit).smaller) + multiset(Partition(samples, index, limit).larger)
            == multiset(samples)
    decreases |samples|
  {
    if samples != [] {
      var init := samples[..|samples| - 1];
      PartitionPermutation(init, index, limit);
      assert samples == init + [samples[|samples| - 1]];
    }
  }

  /** The smaller side holds only samples at most the limit, the larger side only samples above it. */
  lemma {:induction false} PartitionTests(samples: seq<Sample>, index: nat, limit: real)
    ensures forall s | s in Partition(samples, index, limit).smaller :: AtMost(s, index, limit)
    ensures forall s | s in Partition(samples, index, limit).larger :: !AtMost(s, index, limit)
    decreases |samples|
  {
    if samples != [] {
      PartitionTests(samples[..|samples| - 1], index, limit);
    }
  }

  /** Every sample lands on exactly one side: the smaller one exactly when its value is at most the limit. */
  lemma PartitionSides(samples: seq<Sample>, index: nat, limit: real, s: Sample)
    requires s in samples
    ensures s in Partition(samples, index, limit).smaller <==> AtMost(s, index, limit)
    ensures s in Partition(samples, index, limit).larger <==> !AtMost(s, index, limit)
  {
    var sides := Partition(samples, index, limit);
    PartitionPermutation(samples, index, limit);
    PartitionTests(samples, index, limit);
    assert s in multiset(samples);
    assert s in multiset(sides.smaller) || s in multiset(sides.larger);
  }

  /** Both sides are drawn from the input. */
  lemma PartitionSubset(samples: seq<Sample>, index: nat, limit: real)
    ensures forall s | s in Partition(samples, index, limit).smaller :: s in samples
    ensures forall s | s in Partition(samples, index, limit).larger :: s in samples
  {
    var sides := Partition(samples, index, limit);
    PartitionPermutation(samples, index, limit);
    forall s | s in sides.smaller ensures s in samples {
      assert s in multiset(sides.smaller);
    }
    forall s | s in sides.larger ensures s in samples {
      assert s in multiset(sides.larger);
    }
  }

  /** Each side keeps the input order: partitioning a concatenation concatenates the partitions. */
  lemma {:induction false} PartitionAppend(a: seq<Sample>, b: seq<Sample>, index: nat, limit: real)
    ensures Partition(a + b, index, limit).smaller
            == Partition(a, index, limit).smaller + Partition(b, index, limit).smaller
    ensures Partition(a + b, index, limit).larger
            == Partition(a, index, limit).larger + Partition(b, index, limit).larger
    decreases |b|
  {
    if b == [] {
      assert a + b == a;
    } else {
      var init := b[..|b| - 1];
      var x := b[|b| - 1];
      PartitionAppend(a, init, index, limit);
      assert (a + b)[..|a + b| - 1] == a + init && (a + b)[|a + b| - 1] == x;
      var pa, pi := Partition(a, index, limit), Partition(init, index, limit);
      assert (pa.smaller + pi.smaller) + [x] == pa.smaller + (pi.smaller + [x]);
      assert (pa.larger + pi.larger) + [x] == pa.larger + (pi.larger + [x]);
    }
  }

  /** A side is empty only when the other one is the whole input. */
  lemma {:induction false} OneSidedPartition(samples: seq<Sample>, index: nat, limit: real)
    ensures Partition(samples, index, limit).smaller == [] ==> Partition(samples, index, limit).larger == samples
    ensures Partition(samples, index, limit).larger == [] ==> Partition(samples, index, limit).smaller == samples
    decreases |samples|
  {
    if samples != [] {
      var init := samples[..|samples| - 1];
      OneSidedPartition(init, index, limit);
      assert samples == init + [samples[|samples| - 1]];
    }
  }

  /** When every sample is at most the limit, nothing goes to the larger side. */
  lemma {:induction false} AllAtMostOneSided(samples: seq<Sample>, index: nat, limit: real)
    requires forall s | s in samples :: AtMost(s, index, limit)
    ensures Partition(samples, index, limit).larger == []
    decreases |samples|
  {
    if samples != [] {
      AllAtMostOneSided(samples[..|samples| - 1], index, limit);
    }
  }

  /** The share of the samples that went to `side`. */
  function Weight(side: seq<Sample>, samples: seq<Sample>): real
    requires |samples| > 0
  {
    |side| as real / |samples| as real
  }

  /** `(side.length / size) * entropy`: one side's contribution to the score. */
  function Weighted(side: seq<Sample>, samples: seq<Sample>, entropy: real): real
    requires |samples| > 0
  {
    Weight(side, samples) * entropy
  }

  /** The value `totalEntropyOfAttribute(samples, index, limit)` returns. */
  function SplitEntropy(samples: seq<Sample>, index: nat, limit: real, log2: real -> real): real
    requires |samples| > 0
  {
    var sides := Partition(samples, index, limit);
    0.0 + Weighted(sides.smaller, samples, Entropy(sides.smaller, log2))
        + Weighted(sides.larger, samples, Entropy(sides.larger, log2))
  }

  /** `totalEntropyOfAttribute`: partition, then add up each side's entropy weighted by its share. */
  method TotalEntropyOfAttribute(samples: seq<Sample>, attrIndex: nat, attrLimit: real, log2: real -> real)
    returns (entropy: real)
    requires |samples| > 0
    ensures entropy == SplitEntropy(samples, attrIndex, attrLimit, log2)
  {
    var smallerList, largerList := SplitAt(samples, attrIndex, attrLimit);
    entropy := 0.0;
    var smallerEntropy := EntropyOf(smallerList, log2);
    entropy := entropy + Weighted(smallerList, samples, smallerEntropy);
    var largerEntropy := EntropyOf(largerList, log2);
    entropy := entropy + Weighted(largerList, samples, largerEntropy);
  }

  /** The two weights add up to 1. */
  lemma WeightsSumToOne(samples: seq<Sample>, index: nat, limit: real)
    requires |samples| > 0
    ensures Weight(Partition(samples, index, limit).smaller, samples)
          + Weight(Partition(samples, index, limit).larger, samples) == 1.0
  {
    var sides := Partition(samples, index, limit);
    SharesSumToOne(|sides.smaller|, |sides.larger|);
  }

  lemma SharesSumToOne(a: nat, b: nat)
    requires a + b > 0
    ensures a as real / (a + b) as real + b as real / (a + b) as real == 1.0
  {
    var n := (a + b) as real;
    assert a as real / n + b as real / n == (a as real + b as real) / n;
  }

  /** An empty side contributes nothing, so a split that leaves one side empty scores the entropy of the input. */
  lemma OneSidedSplitEntropy(samples: seq<Sample>, index: nat, limit: real, log2: real -> real)
    requires |samples| > 0
    requires Partition(samples, index, limit).smaller == [] || Partition(samples, index, limit).larger == []
    ensures SplitEntropy(samples, index, limit, log2) == Entropy(samples, log2)
  {
    OneSidedPartition(samples, index, limit);
    assert Entropy([], log2) == 0.0;
    WeightedEnds(samples, 0.0);
    WeightedEnds(samples, Entropy(samples, log2));
  }

  lemma WeightedEnds(samples: seq<Sample>, e: real)
    requires |samples| > 0
    ensures Weighted([], samples, e) == 0.0
    ensures Weighted(samples, samples, e) == e
  {
    var n := |samples| as real;
    assert n / n == 1.0;
  }

  lemma SplitEntropyNonNegative(samples: seq<Sample>, index: nat, limit: real, log2: real -> real)
    requires |samples| > 0 && Log2Like(log2)
    ensures SplitEntropy(samples, index, limit, log2) >= 0.0
  {
    var sides := Partition(samples, index, limit);
    EntropyNonNegative(sides.smaller, log2);
    EntropyNonNegative(sides.larger, log2);
    WeightedNonNegative(sides.smaller, samples, Entropy(sides.smaller, log2));
    WeightedNonNegative(sides.larger, samples, Entropy(sides.larger, log2));
  }

  lemma WeightedNonNegative(side: seq<Sample>, samples: seq<Sample>, e: real)
    requires |samples| > 0 && e >= 0.0
    ensures Weighted(side, samples, e) >= 0.0
  {
    assert Weight(side, samples) >= 0.0;
  }

  /** A threshold that leaves a single label on each side scores 0, the least score there is. */
  lemma PureSplitEntropy(samples: seq<Sample>, index: nat, limit: real, log2: real -> real)
    requires |samples| > 0 && Log2Like(log2)
    requires SameDecision(Partition(samples, index, limit).smaller)
    requires SameDecision(Partition(samples, index, limit).larger)
    ensures SplitEntropy(samples, index, limit, log2) == 0.0
  {
    var sides := Partition(samples, index, limit);
    EntropyOfPure(sides.smaller, log2);
    EntropyOfPure(sides.larger, log2);
  }
}
