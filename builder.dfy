/** `decisionTree`: the recursive builder, and what the trees it builds guarantee. */
module Builder {
  import opened Samples
  import opened LabelEntropy
  import opened Split
  import opened Selector
  import opened Trees

  /** The decision of the leaf for a split that separates nothing: the label column's header, then the first label. */
  function Fallback(header: seq<string>, classLabel: string): string
    requires |header| > 0
  {
    header[|header| - 1] + ": " + classLabel
  }

  /** The tree `decisionTree(samples, header, depth)` returns when the depth cap is `maxDepth`. */
  function Build(samples: seq<Sample>, header: seq<string>, depth: nat, maxDepth: int, log2: real -> real): Tree
    requires |samples| > 0 && |header| > 0 && Conforms(samples, |header| - 1)
    decreases |samples|
  {
    assert samples[0] in samples;
    if SameDecision(samples) || depth == maxDepth then Leaf(samples[0].classLabel, samples)
    else
      match MostInformative(samples, log2)
      case None => Leaf(Fallback(header, samples[0].classLabel), samples)
      case Some(c) =>
        var sides := Partition(samples, c.index, c.threshold);
        if sides.smaller == [] || sides.larger == [] then Leaf(Fallback(header, samples[0].classLabel), samples)
        else
          MostInformativeObserved(samples, log2);
          PartitionSubset(samples, c.index, c.threshold);
          Node(header[c.index], c.threshold,
               Build(sides.smaller, header, depth + 1, maxDepth, log2),
               Build(sides.larger, header, depth + 1, maxDepth, log2),
               c.index)
  }

  /** `decisionTree`, with the global `maxDepth` and `Math.log2` passed in. */
  method DecisionTree(samples: seq<Sample>, attributes: seq<string>, depth: nat, maxDepth: int, log2: real -> real)
    returns (t: Tree)
    requires |samples| > 0 && |attributes| > 0 && Conforms(samples, |attributes| - 1)
    ensures t == Build(samples, attributes, depth, maxDepth, log2)
    decreases |samples|
  {
    var same := AreSameDecision(samples);
    if same || depth == maxDepth {
      t := Leaf(samples[0].classLabel, samples);
      return;
    }
    assert samples[0] in samples;
    var best := MostInformativeAttribute(samples, log2);
    // Without a pair the source partitions on NaN, and no value is `<=` NaN: every sample goes to the larger side.
    var smallerChild, largerChild := [], samples;
    if best.Some? {
      smallerChild, largerChild := SplitAt(samples, best.value.index, best.value.threshold);
    }
    if |smallerChild| == 0 || |largerChild| == 0 {
      t := Leaf(Fallback(attributes, samples[0].classLabel), samples);
      return;
    }
    var bestAttributeIndex, bestAttributeValue := best.value.index, best.value.threshold;
    MostInformativeObserved(samples, log2);
    PartitionSubset(samples, bestAttributeIndex, bestAttributeValue);
    var smallerTree := DecisionTree(smallerChild, attributes, depth + 1, maxDepth, log2);
    var largerTree := DecisionTree(largerChild, attributes, depth + 1, maxDepth, log2);
    t := Node(attributes[bestAttributeIndex], bestAttributeValue, smallerTree, largerTree, bestAttributeIndex);
  }

  /** A pure input, or one that reaches the depth cap, becomes a single leaf holding it, which answers the first label
      for every sample; in particular `maxDepth = 0` always gives a single leaf. */
  lemma BuildStops(samples: seq<Sample>, header: seq<string>, depth: nat, maxDepth: int, log2: real -> real)
    requires |samples| > 0 && |header| > 0 && Conforms(samples, |header| - 1)
    requires SameDecision(samples) || depth == maxDepth
    ensures Build(samples, header, depth, maxDepth, log2) == Leaf(samples[0].classLabel, samples)
    ensures forall s :: Classify(s, Build(samples, header, depth, maxDepth, log2)) == samples[0].classLabel
  {
  }

  /** When labels differ below the cap and a pair is selected, but its split leaves one side empty, the input becomes
      the fallback leaf. */
  lemma DegenerateSplitLeaf(samples: seq<Sample>, header: seq<string>, depth: nat, maxDepth: int, log2: real -> real)
    requires |samples| > 0 && |header| > 0 && Conforms(samples, |header| - 1)
    requires !SameDecision(samples) && depth != maxDepth
    requires assert samples[0] in samples;
             var best := MostInformative(samples, log2);
             best.Some?
             && (Partition(samples, best.value.index, best.value.threshold).smaller == []
                 || Partition(samples, best.value.index, best.value.threshold).larger == [])
    ensures Build(samples, header, depth, maxDepth, log2) == Leaf(Fallback(header, samples[0].classLabel), samples)
  {
    assert samples[0] in samples;
  }

  /** When labels differ below the cap but no candidate scores under 5, the input becomes the fallback leaf. */
  lemma NoSplitBelowSentinel(samples: seq<Sample>, header: seq<string>, depth: nat, maxDepth: int, log2: real -> real)
    requires |samples| > 0 && |header| > 0 && Conforms(samples, |header| - 1)
    requires !SameDecision(samples) && depth != maxDepth
    requires forall d | d in Candidates(samples) :: Score(samples, d, log2) >= Sentinel
    ensures Build(samples, header, depth, maxDepth, log2) == Leaf(Fallback(header, samples[0].classLabel), samples)
  {
    assert samples[0] in samples;
    NoneMeansNothingBelowSentinel(samples, log2);
  }

  /** A node is built from a split that leaves both sides non-empty, so each child is built from strictly fewer samples:
      its test is the selected pair, and its first child holds exactly the smaller side, its second the larger side. */
  lemma BuildSplits(samples: seq<Sample>, header: seq<string>, depth: nat, maxDepth: int, log2: real -> real)
    requires |samples| > 0 && |header| > 0 && Conforms(samples, |header| - 1)
    ensures var t := Build(samples, header, depth, maxDepth, log2);
            t.Node? ==>
              assert samples[0] in samples;
              !SameDecision(samples) && depth != maxDepth && MostInformative(samples, log2).Some?
              && var c := MostInformative(samples, log2).value;
                 var sides := Partition(samples, c.index, c.threshold);
                 t.attributeIndex == c.index && t.attributeValue == c.threshold
                 && 0 < |sides.smaller| < |samples| && 0 < |sides.larger| < |samples|
                 && multiset(LeafSamples(t.smaller)) == multiset(sides.smaller)
                 && multiset(LeafSamples(t.larger)) == multiset(sides.larger)
  {
    assert samples[0] in samples;
    var t := Build(samples, header, depth, maxDepth, log2);
    if t.Node? {
      var c := MostInformative(samples, log2).value;
      var sides := Partition(samples, c.index, c.threshold);
      PartitionSubset(samples, c.index, c.threshold);
      BuildKeepsSamples(sides.smaller, header, depth + 1, maxDepth, log2);
      BuildKeepsSamples(sides.larger, header, depth + 1, maxDepth, log2);
    }
  }

  /** Samples that agree on every column but not on the label cannot be split: they become the fallback leaf. */
  lemma InseparableLeaf(samples: seq<Sample>, header: seq<string>, depth: nat, maxDepth: int, log2: real -> real)
    requires |samples| > 0 && |header| > 0 && Conforms(samples, |header| - 1)
    requires !SameDecision(samples) && depth != maxDepth
    requires forall j | 0 <= j < |samples| :: samples[j].attrs == samples[0].attrs
    ensures Build(samples, header, depth, maxDepth, log2) == Leaf(Fallback(header, samples[0].classLabel), samples)
  {
    assert samples[0] in samples;
    MostInformativeObserved(samples, log2);
    if MostInformative(samples, log2).Some? {
      var c := MostInformative(samples, log2).value;
      var sides := Partition(samples, c.index, c.threshold);
      var j :| 0 <= j < |samples| && samples[j].attrs[c.index] == c.threshold;
      forall s | s in samples ensures AtMost(s, c.index, c.threshold) {
        var k :| 0 <= k < |samples| && samples[k] == s;
        assert samples[k].attrs == samples[j].attrs;
      }
      AllAtMostOneSided(samples, c.index, c.threshold);
    }
  }

  /** The leaves together hold exactly the input samples. */
  lemma {:induction false} BuildKeepsSamples(samples: seq<Sample>, header: seq<string>, depth: nat, maxDepth: int,
                                             log2: real -> real)
    requires |samples| > 0 && |header| > 0 && Conforms(samples, |header| - 1)
    ensures multiset(LeafSamples(Build(samples, header, depth, maxDepth, log2))) == multiset(samples)
    decreases |samples|
  {
    assert samples[0] in samples;
    if !SameDecision(samples) && depth != maxDepth && MostInformative(samples, log2).Some? {
      var c := MostInformative(samples, log2).value;
      var sides := Partition(samples, c.index, c.threshold);
      if sides.smaller != [] && sides.larger != [] {
        PartitionSubset(samples, c.index, c.threshold);
        PartitionPermutation(samples, c.index, c.threshold);
        BuildKeepsSamples(sides.smaller, header, depth + 1, maxDepth, log2);
        BuildKeepsSamples(sides.larger, header, depth + 1, maxDepth, log2);
      }
    }
  }

  /** Every node sends to its first child only samples at most its threshold, and to its second child only the rest. */
  lemma {:induction false} BuildSeparated(samples: seq<Sample>, header: seq<string>, depth: nat, maxDepth: int,
                                          log2: real -> real)
    requires |samples| > 0 && |header| > 0 && Conforms(samples, |header| - 1)
    ensures Separated(Build(samples, header, depth, maxDepth, log2))
    decreases |samples|
  {
    assert samples[0] in samples;
    if !SameDecision(samples) && depth != maxDepth && MostInformative(samples, log2).Some? {
      var c := MostInformative(samples, log2).value;
      var sides := Partition(samples, c.index, c.threshold);
      if sides.smaller != [] && sides.larger != [] {
        PartitionSubset(samples, c.index, c.threshold);
        PartitionTests(samples, c.index, c.threshold);
        var left := Build(sides.smaller, header, depth + 1, maxDepth, log2);
        var right := Build(sides.larger, header, depth + 1, maxDepth, log2);
        BuildSeparated(sides.smaller, header, depth + 1, maxDepth, log2);
        BuildSeparated(sides.larger, header, depth + 1, maxDepth, log2);
        BuildKeepsSamples(sides.smaller, header, depth + 1, maxDepth, log2);
        BuildKeepsSamples(sides.larger, header, depth + 1, maxDepth, log2);
        forall s | s in LeafSamples(left) ensures AtMost(s, c.index, c.threshold) {
          assert s in multiset(LeafSamples(left));
        }
        forall s | s in LeafSamples(right) ensures !AtMost(s, c.index, c.threshold) {
          assert s in multiset(LeafSamples(right));
        }
      }
    }
  }

  /** Every node tests a column of the table, names it by that column's header and uses as threshold a value some sample
      under it has in that column. */
  predicate Named(t: Tree, header: seq<string>)
  {
    match t
    case Leaf(_, _) => true
    case Node(attribute, limit, smaller, larger, index) =>
      index + 1 < |header| && attribute == header[index]
      && (exists s | s in LeafSamples(t) :: index < |s.attrs| && s.attrs[index] == limit)
      && Named(smaller, header) && Named(larger, header)
  }

  /** Every leaf holds samples, and its decision is its first sample's label or, only when the labels differ, the fallback
      text. */
  predicate Decided(t: Tree, header: seq<string>)
    requires |header| > 0
  {
    match t
    case Leaf(decision, samples) =>
      |samples| > 0
      && (decision == samples[0].classLabel
          || (decision == Fallback(header, samples[0].classLabel) && !SameDecision(samples)))
    case Node(_, _, smaller, larger, _) => Decided(smaller, header) && Decided(larger, header)
  }

  /** The root of a built tree, when a node, tests a column of the table, named by its header, at a value that a sample
      under it has there. */
  lemma BuildNodeTest(samples: seq<Sample>, header: seq<string>, depth: nat, maxDepth: int, log2: real -> real)
    requires |samples| > 0 && |header| > 0 && Conforms(samples, |header| - 1)
    ensures var t := Build(samples, header, depth, maxDepth, log2);
            t.Node? ==>
              t.attributeIndex + 1 < |header| && t.attribute == header[t.attributeIndex]
              && exists s | s in LeafSamples(t) :: t.attributeIndex < |s.attrs| && s.attrs[t.attributeIndex] == t.attributeValue
  {
    assert samples[0] in samples;
    var t := Build(samples, header, depth, maxDepth, log2);
    if t.Node? {
      MostInformativeObserved(samples, log2);
      BuildKeepsSamples(samples, header, depth, maxDepth, log2);
      var j :| 0 <= j < |samples| && samples[j].attrs[t.attributeIndex] == t.attributeValue;
      assert samples[j] in samples;
      assert samples[j] in multiset(LeafSamples(t));
    }
  }

  lemma {:induction false} BuildNamed(samples: seq<Sample>, header: seq<string>, depth: nat, maxDepth: int,
                                      log2: real -> real)
    requires |samples| > 0 && |header| > 0 && Conforms(samples, |header| - 1)
    ensures Named(Build(samples, header, depth, maxDepth, log2), header)
    decreases |samples|
  {
    assert samples[0] in samples;
    var t := Build(samples, header, depth, maxDepth, log2);
    if t.Node? {
      var c := MostInformative(samples, log2).value;
      var sides := Partition(samples, c.index, c.threshold);
      PartitionSubset(samples, c.index, c.threshold);
      BuildNamed(sides.smaller, header, depth + 1, maxDepth, log2);
      BuildNamed(sides.larger, header, depth + 1, maxDepth, log2);
      BuildNodeTest(samples, header, depth, maxDepth, log2);
    }
  }

  lemma {:induction false} BuildDecided(samples: seq<Sample>, header: seq<string>, depth: nat, maxDepth: int,
                                        log2: real -> real)
    requires |samples| > 0 && |header| > 0 && Conforms(samples, |header| - 1)
    ensures Decided(Build(samples, header, depth, maxDepth, log2), header)
    decreases |samples|
  {
    assert samples[0] in samples;
    if !SameDecision(samples) && depth != maxDepth && MostInformative(samples, log2).Some? {
      var c := MostInformative(samples, log2).value;
      var sides := Partition(samples, c.index, c.threshold);
      if sides.smaller != [] && sides.larger != [] {
        PartitionSubset(samples, c.index, c.threshold);
        BuildDecided(sides.smaller, header, depth + 1, maxDepth, log2);
        BuildDecided(sides.larger, header, depth + 1, maxDepth, log2);
      }
    }
  }

  /** The depth cap holds: from `depth <= maxDepth` the tree is at most `maxDepth - depth` nodes deep. */
  lemma {:induction false} BuildDepthCap(samples: seq<Sample>, header: seq<string>, depth: nat, maxDepth: int,
                                         log2: real -> real)
    requires |samples| > 0 && |header| > 0 && Conforms(samples, |header| - 1) && depth <= maxDepth
    ensures Height(Build(samples, header, depth, maxDepth, log2)) <= maxDepth - depth
    decreases |samples|
  {
    assert samples[0] in samples;
    if !SameDecision(samples) && depth != maxDepth && MostInformative(samples, log2).Some? {
      var c := MostInformative(samples, log2).value;
      var sides := Partition(samples, c.index, c.threshold);
      if sides.smaller != [] && sides.larger != [] {
        PartitionSubset(samples, c.index, c.threshold);
        BuildDepthCap(sides.smaller, header, depth + 1, maxDepth, log2);
        BuildDepthCap(sides.larger, header, depth + 1, maxDepth, log2);
      }
    }
  }

  /** Every node splits off at least one sample on each side, so the tree is shallower than the number of samples. */
  lemma {:induction false} BuildShallow(samples: seq<Sample>, header: seq<string>, depth: nat, maxDepth: int,
                                        log2: real -> real)
    requires |samples| > 0 && |header| > 0 && Conforms(samples, |header| - 1)
    ensures Height(Build(samples, header, depth, maxDepth, log2)) < |samples|
    decreases |samples|
  {
    assert samples[0] in samples;
    if !SameDecision(samples) && depth != maxDepth && MostInformative(samples, log2).Some? {
      var c := MostInformative(samples, log2).value;
      var sides := Partition(samples, c.index, c.threshold);
      if sides.smaller != [] && sides.larger != [] {
        PartitionSubset(samples, c.index, c.threshold);
        BuildShallow(sides.smaller, header, depth + 1, maxDepth, log2);
        BuildShallow(sides.larger, header, depth + 1, maxDepth, log2);
      }
    }
  }

  /** The leaf `classify` reaches in a decided tree is a decided leaf. */
  lemma {:induction false} RouteDecided(s: Sample, t: Tree, header: seq<string>)
    requires |header| > 0 && Decided(t, header)
    ensures Decided(Route(s, t), header)
  {
    match t
    case Leaf(_, _) =>
    case Node(_, limit, smaller, larger, index) =>
      if AtMost(s, index, limit) {
        RouteDecided(s, smaller, header);
      } else {
        RouteDecided(s, larger, header);
      }
  }

  /** A training sample is classified by the leaf that holds it; when that leaf's samples all share a label, `classify`
      gives the sample its own label back. */
  lemma TrainingSampleClassified(samples: seq<Sample>, header: seq<string>, depth: nat, maxDepth: int,
                                 log2: real -> real, s: Sample)
    requires |samples| > 0 && |header| > 0 && Conforms(samples, |header| - 1) && s in samples
    ensures s in Route(s, Build(samples, header, depth, maxDepth, log2)).samples
    ensures SameDecision(Route(s, Build(samples, header, depth, maxDepth, log2)).samples) ==>
              Classify(s, Build(samples, header, depth, maxDepth, log2)) == s.classLabel
  {
    var t := Build(samples, header, depth, maxDepth, log2);
    BuildKeepsSamples(samples, header, depth, maxDepth, log2);
    BuildSeparated(samples, header, depth, maxDepth, log2);
    BuildDecided(samples, header, depth, maxDepth, log2);
    assert s in multiset(LeafSamples(t));
    RouteFindsHolder(s, t);
    RouteDecided(s, t, header);
    ClassifyAnswersRoute(s, t);
    var leaf := Route(s, t);
    var k :| 0 <= k < |leaf.samples| && leaf.samples[k] == s;
    assert SameDecision(leaf.samples) ==> leaf.samples[k].classLabel == leaf.samples[0].classLabel;
  }
}
