/** The label helpers of the induction: the purity test `areSameDecision` and the entropy `entropyOf`.
    `Math.log2` is the one thing not expressed: it is passed in as `log2`, and the lemmas that need
    its values require only `Log2Like(log2)`. */
module LabelEntropy {
  import opened Samples
  import opened StringOrder

  /** What the lemmas below assume of `Math.log2`: it is 0 at 1 and negative on (0, 1). */
  ghost predicate Log2Like(log2: real -> real) {
    log2(1.0) == 0.0 && forall x: real :: 0.0 < x < 1.0 ==> log2(x) < 0.0
  }

  /** `areSameDecision`: clears its flag as soon as one label differs from the first sample's label. */
  method AreSameDecision(samples: seq<Sample>) returns (same: bool)
    requires |samples| > 0
    ensures same <==> forall i | 0 <= i < |samples| :: samples[i].classLabel == samples[0].classLabel
  {
    same := true;
    var decision := samples[0].classLabel;
    for j := 0 to |samples|
      invariant same <==> forall i | 0 <= i < j :: samples[i].classLabel == decision
    {
      if samples[j].classLabel != decision {
        same := false;
      }
    }
  }

  /** The labels of `samples` in order of first occurrence: the `includes`/`push` loop of `entropyOf`. */
  function FirstOccurrences(samples: seq<Sample>): seq<string>
  {
    if samples == [] then []
    else
      var keys := FirstOccurrences(samples[..|samples| - 1]);
      var l := samples[|samples| - 1].classLabel;
      if l in keys then keys else keys + [l]
  }

  /** `valueKeys` after `valueKeys.sort()`. */
  function SortedKeys(samples: seq<Sample>): seq<string>
  {
    Sort(FirstOccurrences(samples))
  }

  /** How many samples carry label `key`: what the inner loop adds up in `valueDistribution[key]`. */
  function Count(samples: seq<Sample>, key: string): (n: nat)
    ensures n <= |samples|
  {
    if samples == [] then 0
    else Count(samples[..|samples| - 1], key) + if samples[|samples| - 1].classLabel == key then 1 else 0
  }

  /** The count of each key, in the order of `keys`. */
  function Tally(keys: seq<string>, samples: seq<Sample>): (counts: seq<nat>)
    ensures |counts| == |keys|
    ensures forall k | 0 <= k < |keys| :: counts[k] == Count(samples, keys[k])
  {
    if keys == [] then [] else [Count(samples, keys[0])] + Tally(keys[1..], samples)
  }

  /** `valueDistribution`, read in the order its keys were inserted. */
  function Distribution(samples: seq<Sample>): seq<nat>
  {
    Tally(SortedKeys(samples), samples)
  }

  function Sum(counts: seq<nat>): nat
  {
    if counts == [] then 0 else counts[0] + Sum(counts[1..])
  }

  /** `(freq / size) * Math.log2(freq / size)`. */
  function Term(freq: nat, size: nat, log2: real -> real): real
    requires size > 0
  {
    var ratio := freq as real / size as real;
    ratio * log2(ratio)
  }

  /** `entropy -= Term(freq, size)` for the first `k` counts in turn, starting from 0. */
  function Information(counts: seq<nat>, k: nat, size: nat, log2: real -> real): real
    requires k <= |counts| && (size > 0 || k == 0)
  {
    if k == 0 then 0.0
    else Information(counts, k - 1, size, log2) - Term(counts[k - 1], size, log2)
  }

  /** The value `entropyOf(samples)` returns. */
  function Entropy(samples: seq<Sample>, log2: real -> real): real
  {
    var counts := Distribution(samples);
    Information(counts, |counts|, |samples|, log2)
  }

  /** `entropyOf`: collect the distinct labels, sort them, count each one, then sum the information terms. */
  method EntropyOf(samples: seq<Sample>, log2: real -> real) returns (entropy: real)
    ensures entropy == Entropy(samples, log2)
  {
    var size := |samples|;
    entropy := 0.0;
    var valueKeys := CollectKeys(samples);
    valueKeys := Sort(valueKeys);
    var valueDistribution := CountKeys(samples, valueKeys);

    // `for (const key in valueDistribution)`: the dictionary's keys are exactly `valueKeys`, inserted in that order.
    ghost var counts := Distribution(samples);
    assert size == 0 ==> samples == [] && counts == [];
    for k := 0 to |valueKeys|
      invariant entropy == Information(counts, k, size, log2)
    {
      var freq := valueDistribution[valueKeys[k]];
      assert freq == counts[k];
      entropy := entropy - Term(freq, size, log2);
    }
  }

  /** The first loop of `entropyOf`: push each label that `valueKeys` does not include yet. */
  method CollectKeys(samples: seq<Sample>) returns (valueKeys: seq<string>)
    ensures valueKeys == FirstOccurrences(samples)
  {
    valueKeys := [];
    for j := 0 to |samples|
      invariant valueKeys == FirstOccurrences(samples[..j])
    {
      assert samples[..j + 1][..j] == samples[..j];
      if samples[j].classLabel !in valueKeys {
        valueKeys := valueKeys + [samples[j].classLabel];
      }
    }
    assert samples[..|samples|] == samples;
  }

  /** The nested loops of `entropyOf` that fill `valueDistribution`: for each key, reset it to 0
      and add 1 for every sample carrying that key. */
  method CountKeys(samples: seq<Sample>, valueKeys: seq<string>) returns (valueDistribution: map<string, nat>)
    ensures valueDistribution.Keys == set m | 0 <= m < |valueKeys| :: valueKeys[m]
    ensures forall m | 0 <= m < |valueKeys| :: valueKeys[m] in valueDistribution
                                            && valueDistribution[valueKeys[m]] == Count(samples, valueKeys[m])
  {
    valueDistribution := map[];
    for k := 0 to |valueKeys|
      invariant valueDistribution.Keys == set m | 0 <= m < k :: valueKeys[m]
      invariant forall m | 0 <= m < k :: valueKeys[m] in valueDistribution
                                      && valueDistribution[valueKeys[m]] == Count(samples, valueKeys[m])
    {
      var key := valueKeys[k];
      valueDistribution := valueDistribution[key := 0];
      for j := 0 to |samples|
        invariant valueDistribution.Keys == set m | 0 <= m < k + 1 :: valueKeys[m]
        invariant key in valueDistribution && valueDistribution[key] == Count(samples[..j], key)
        invariant forall m | 0 <= m < k && valueKeys[m] != key :: valueKeys[m] in valueDistribution
                                      && valueDistribution[valueKeys[m]] == Count(samples, valueKeys[m])
      {
        assert samples[..j + 1][..j] == samples[..j];
        if samples[j].classLabel == key {
          valueDistribution := valueDistribution[key := valueDistribution[key] + 1];
        }
      }
      assert samples[..|samples|] == samples;
    }
  }

  /** The collected keys are exactly the labels that occur, each once. */
  lemma {:induction false} FirstOccurrencesFacts(samples: seq<Sample>)
    ensures NoDup(FirstOccurrences(samples))
    ensures forall l :: l in FirstOccurrences(samples) <==> HasLabel(samples, l)
    decreases |samples|
  {
    if samples != [] {
      var init, x := samples[..|samples| - 1], samples[|samples| - 1];
      FirstOccurrencesFacts(init);
      forall l ensures HasLabel(samples, l) <==> HasLabel(init, l) || x.classLabel == l {
        if HasLabel(init, l) {
          var i :| 0 <= i < |init| && init[i].classLabel == l;
          assert samples[i] == init[i];
        }
        if HasLabel(samples, l) {
          var i :| 0 <= i < |samples| && samples[i].classLabel == l;
          if i < |init| {
            assert init[i] == samples[i];
          }
        }
      }
    }
  }

  lemma {:induction false} CountPositive(samples: seq<Sample>, key: string)
    requires HasLabel(samples, key)
    ensures Count(samples, key) >= 1
    decreases |samples|
  {
    var init := samples[..|samples| - 1];
    if samples[|samples| - 1].classLabel != key {
      var i :| 0 <= i < |samples| && samples[i].classLabel == key;
      assert init[i] == samples[i];
      CountPositive(init, key);
    }
  }

  /** Number of positions of `keys` that hold `l`. */
  function Hits(keys: seq<string>, l: string): nat
  {
    if keys == [] then 0 else (if keys[0] == l then 1 else 0) + Hits(keys[1..], l)
  }

  lemma {:induction false} HitsOnce(keys: seq<string>, l: string)
    requires NoDup(keys)
    ensures Hits(keys, l) == if l in keys then 1 else 0
    decreases |keys|
  {
    if keys != [] {
      assert NoDup(keys[1..]);
      HitsOnce(keys[1..], l);
      assert l in keys <==> keys[0] == l || l in keys[1..];
      if keys[0] == l {
        assert l !in keys[1..];
      }
    }
  }

  /** One more sample raises the total of the counts by the number of keys matching its label. */
  lemma {:induction false} TallyAppend(keys: seq<string>, samples: seq<Sample>, x: Sample)
    ensures Sum(Tally(keys, samples + [x])) == Sum(Tally(keys, samples)) + Hits(keys, x.classLabel)
    decreases |keys|
  {
    if keys != [] {
      assert (samples + [x])[..|samples|] == samples;
      TallyAppend(keys[1..], samples, x);
    }
  }

  lemma {:induction false} TallySum(keys: seq<string>, samples: seq<Sample>)
    requires NoDup(keys)
    requires forall i | 0 <= i < |samples| :: samples[i].classLabel in keys
    ensures Sum(Tally(keys, samples)) == |samples|
    decreases |samples|
  {
    if samples == [] {
      TallyEmpty(keys);
    } else {
      var init, x := samples[..|samples| - 1], samples[|samples| - 1];
      TallySum(keys, init);
      TallyAppend(keys, init, x);
      HitsOnce(keys, x.classLabel);
      assert init + [x] == samples;
    }
  }

  lemma {:induction false} TallyEmpty(keys: seq<string>)
    ensures Sum(Tally(keys, [])) == 0
    decreases |keys|
  {
    if keys != [] {
      TallyEmpty(keys[1..]);
    }
  }

  /** The keys of `entropyOf` after sorting are the labels that occur, in strictly increasing order. */
  lemma SortedKeysFacts(samples: seq<Sample>)
    ensures StrictlySorted(SortedKeys(samples)) && NoDup(SortedKeys(samples))
    ensures forall l :: l in SortedKeys(samples) <==> HasLabel(samples, l)
  {
    var unsorted := FirstOccurrences(samples);
    var keys := SortedKeys(samples);
    FirstOccurrencesFacts(samples);
    SortStrictlySorted(unsorted);
    StrictlySortedNoDup(keys);
    forall l ensures l in keys <==> l in unsorted {
      assert l in keys <==> l in multiset(keys);
      assert l in unsorted <==> l in multiset(unsorted);
    }
  }

  /** The label distribution of `entropyOf`: one count per sorted key, every count at least 1,
      and the counts add up to the number of samples. */
  lemma DistributionFacts(samples: seq<Sample>)
    ensures |Distribution(samples)| == |SortedKeys(samples)|
    ensures forall k | 0 <= k < |SortedKeys(samples)| ::
              1 <= Distribution(samples)[k] == Count(samples, SortedKeys(samples)[k])
    ensures Sum(Distribution(samples)) == |samples|
  {
    var keys := SortedKeys(samples);
    SortedKeysFacts(samples);
    forall k | 0 <= k < |keys| ensures Count(samples, keys[k]) >= 1 {
      CountPositive(samples, keys[k]);
    }
    forall i | 0 <= i < |samples| ensures samples[i].classLabel in keys {
      assert HasLabel(samples, samples[i].classLabel);
    }
    TallySum(keys, samples);
  }

  lemma {:induction false} InformationNonNegative(counts: seq<nat>, k: nat, size: nat, log2: real -> real)
    requires Log2Like(log2) && size > 0 && k <= |counts|
    requires forall m | 0 <= m < |counts| :: 0 < counts[m] <= size
    ensures Information(counts, k, size, log2) >= 0.0
  {
    if k > 0 {
      InformationNonNegative(counts, k - 1, size, log2);
      var p := counts[k - 1] as real / size as real;
      FractionInUnit(counts[k - 1], size);
      assert p == 1.0 || p < 1.0;
      NonPositiveProduct(p, log2(p));
      assert Term(counts[k - 1], size, log2) == p * log2(p);
    }
  }

  lemma FractionInUnit(c: nat, size: nat)
    requires 0 < c <= size
    ensures 0.0 < c as real / size as real <= 1.0
  {
  }

  lemma NonPositiveProduct(p: real, l: real)
    requires p > 0.0 && l <= 0.0
    ensures p * l <= 0.0
  {
  }

  /** Entropy is never negative. */
  lemma EntropyNonNegative(samples: seq<Sample>, log2: real -> real)
    requires Log2Like(log2)
    ensures Entropy(samples, log2) >= 0.0
  {
    DistributionFacts(samples);
    if samples != [] {
      var counts := Distribution(samples);
      InformationNonNegative(counts, |counts|, |samples|, log2);
    }
  }

  lemma {:induction false} CountAll(samples: seq<Sample>)
    requires |samples| > 0 && SameDecision(samples)
    ensures Count(samples, samples[0].classLabel) == |samples|
    ensures FirstOccurrences(samples) == [samples[0].classLabel]
    decreases |samples|
  {
    var init := samples[..|samples| - 1];
    if init != [] {
      assert init[0] == samples[0];
      assert SameDecision(init);
      CountAll(init);
    }
  }

  /** With every count strictly between 0 and the size, each term is negative, so the sum is positive. */
  lemma InformationPositive(counts: seq<nat>, k: nat, size: nat, log2: real -> real)
    requires Log2Like(log2) && size > 0 && 0 < k <= |counts|
    requires forall m | 0 <= m < |counts| :: 0 < counts[m] < size
    ensures Information(counts, k, size, log2) > 0.0
  {
    InformationNonNegative(counts, k - 1, size, log2);
    var p := counts[k - 1] as real / size as real;
    FractionInUnit(counts[k - 1], size);
    assert p < 1.0;
    NegativeProduct(p, log2(p));
  }

  lemma NegativeProduct(p: real, l: real)
    requires p > 0.0 && l < 0.0
    ensures p * l < 0.0
  {
  }

  /** In counts that are all at least 1, with two or more of them, each count is below the total. */
  lemma {:induction false} CountBelowSum(counts: seq<nat>, k: nat)
    requires 2 <= |counts| && k < |counts|
    requires forall m | 0 <= m < |counts| :: counts[m] >= 1
    ensures counts[k] < Sum(counts)
    decreases |counts|
  {
    var rest := counts[1..];
    if k == 0 {
      assert rest[0] == counts[1];
      assert Sum(rest) == rest[0] + Sum(rest[1..]);
    } else if |rest| >= 2 {
      CountBelowSum(rest, k - 1);
    } else {
      assert rest == [counts[1]] && rest[1..] == [];
    }
  }

  /** A sequence holding two different values has at least two elements. */
  lemma TwoValues(keys: seq<string>, a: string, b: string)
    requires a in keys && b in keys && a != b
    ensures |keys| >= 2
  {
    var i :| 0 <= i < |keys| && keys[i] == a;
    var j :| 0 <= j < |keys| && keys[j] == b;
    assert i != j;
  }

  /** Entropy is 0 exactly when all samples carry one label (the empty list included). */
  lemma EntropyZeroIffPure(samples: seq<Sample>, log2: real -> real)
    requires Log2Like(log2)
    ensures Entropy(samples, log2) == 0.0 <==> SameDecision(samples)
  {
    if SameDecision(samples) {
      EntropyOfPure(samples, log2);
    } else {
      var i :| 0 <= i < |samples| && samples[i].classLabel != samples[0].classLabel;
      var keys, counts := SortedKeys(samples), Distribution(samples);
      SortedKeysFacts(samples);
      DistributionFacts(samples);
      assert HasLabel(samples, samples[0].classLabel) && HasLabel(samples, samples[i].classLabel);
      TwoValues(keys, samples[0].classLabel, samples[i].classLabel);
      forall m | 0 <= m < |counts| ensures 0 < counts[m] < |samples| {
        CountBelowSum(counts, m);
      }
      InformationPositive(counts, |counts|, |samples|, log2);
    }
  }

  /** Samples that all carry one label have entropy 0; so does the empty list, whose loops do nothing. */
  lemma EntropyOfPure(samples: seq<Sample>, log2: real -> real)
    requires Log2Like(log2) && SameDecision(samples)
    ensures Entropy(samples, log2) == 0.0
  {
    if samples != [] {
      CountAll(samples);
      var n, l := |samples|, samples[0].classLabel;
      assert Sort([l]) == Insert(l, Sort([])) == [l] by {
        assert [l][..0] == [];
      }
      assert Distribution(samples) == Tally([l], samples) == [n];
      assert n as real / n as real == 1.0;
      assert Term(n, n, log2) == 0.0;
      assert Information([n], 1, n, log2) == 0.0 - Term(n, n, log2);
    }
  }
}
