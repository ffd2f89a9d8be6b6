/** `mostInformativeAttribute`: every (column, sample) pair is a candidate threshold, scored by the weighted
    entropy of its split; the running minimum starts at the sentinel 5 and moves only on a strictly smaller score. */
module Selector {
  import opened Samples
  import opened LabelEntropy
  import opened Split

  /** The pair `[bestAttributeIndex, bestAttributeValue]`. */
  datatype Candidate = Candidate(index: nat, threshold: real)

  /** The running minimum and the pair that reached it; `None` stands for the initial `[NaN, NaN]`. */
  datatype Choice = Choice(score: real, best: Option<Candidate>)

  /** The upper limit the search starts from. */
  const Sentinel: real := 5.0

  /** A non-empty, rectangular table: every sample has as many attribute columns as the first one. */
  predicate Table(samples: seq<Sample>) {
    |samples| > 0 && Conforms(samples, |samples[0].attrs|)
  }

  /** The candidates of column `i`, in sample order: each sample's own value is a threshold. */
  function ColumnCandidates(samples: seq<Sample>, i: nat): seq<Candidate>
    requires Table(samples) && i < |samples[0].attrs|
  {
    seq(|samples|, j requires 0 <= j < |samples| => assert samples[j] in samples; Candidate(i, samples[j].attrs[i]))
  }

  /** The candidates of the first `c` columns, column by column: the order of the nested loops. */
  function CandidatesUpTo(samples: seq<Sample>, c: nat): seq<Candidate>
    requires Table(samples) && c <= |samples[0].attrs|
  {
    if c == 0 then [] else CandidatesUpTo(samples, c - 1) + ColumnCandidates(samples, c - 1)
  }

  function Candidates(samples: seq<Sample>): seq<Candidate>
    requires Table(samples)
  {
    CandidatesUpTo(samples, |samples[0].attrs|)
  }

  /** The value of `totalEntropyOfAttribute` for a candidate. */
  function Score(samples: seq<Sample>, c: Candidate, log2: real -> real): real
    requires |samples| > 0
  {
    SplitEntropy(samples, c.index, c.threshold, log2)
  }

  /** The search over `cands` in order, replacing the choice only on a strictly smaller score. */
  function Scan(cands: seq<Candidate>, score: Candidate -> real, start: Choice): Choice
  {
    if cands == [] then start
    else
      var c := cands[|cands| - 1];
      Step(Scan(cands[..|cands| - 1], score, start), c, score(c))
  }

  /** One iteration of the inner loop: candidate `c` with score `e` replaces the choice only when strictly better. */
  function Step(ch: Choice, c: Candidate, e: real): Choice
  {
    if e < ch.score then Choice(e, Some(c)) else ch
  }

  /** The state before the loops: the sentinel and no pair. */
  const Initial := Choice(Sentinel, None)

  /** Scanning one more candidate is one more step. */
  lemma ScanSnoc(cands: seq<Candidate>, c: Candidate, score: Candidate -> real, start: Choice)
    ensures Scan(cands + [c], score, start) == Step(Scan(cands, score, start), c, score(c))
  {
    assert (cands + [c])[..|cands|] == cands;
  }

  lemma TakeOneMore(cands: seq<Candidate>, j: nat)
    requires j < |cands|
    ensures cands[..j + 1] == cands[..j] + [cands[j]]
  {
  }

  /** Scanning one list after another is scanning their concatenation: the outer loop's step. */
  lemma {:induction false} ScanAppend(a: seq<Candidate>, b: seq<Candidate>, score: Candidate -> real, start: Choice)
    ensures Scan(a + b, score, start) == Scan(b, score, Scan(a, score, start))
    decreases |b|
  {
    if b == [] {
      assert a + b == a;
    } else {
      ScanAppend(a, b[..|b| - 1], score, start);
      assert (a + b)[..|a + b| - 1] == a + b[..|b| - 1];
    }
  }

  /** The scores `totalEntropyOfAttribute` gives the candidates of `samples`. */
  function Scores(samples: seq<Sample>, log2: real -> real): Candidate -> real
    requires |samples| > 0
  {
    c => Score(samples, c, log2)
  }

  /** What `mostInformativeAttribute(samples)` returns. */
  function MostInformative(samples: seq<Sample>, log2: real -> real): Option<Candidate>
    requires Table(samples)
  {
    Scan(Candidates(samples), Scores(samples, log2), Initial).best
  }

  /** `mostInformativeAttribute`: the nested loops over columns and samples. */
  method MostInformativeAttribute(samples: seq<Sample>, log2: real -> real) returns (best: Option<Candidate>)
    requires Table(samples)
    ensures best == MostInformative(samples, log2)
  {
    var entropy := Sentinel;
    var attributeNumber := |samples[0].attrs|;
    best := None;
    for i := 0 to attributeNumber
      invariant Choice(entropy, best) == Scan(CandidatesUpTo(samples, i), Scores(samples, log2), Initial)
    {
      ScanAppend(CandidatesUpTo(samples, i), ColumnCandidates(samples, i), Scores(samples, log2), Initial);
      entropy, best := ScanColumn(samples, i, entropy, best, log2);
    }
  }

  /** The inner loop of `mostInformativeAttribute`: every sample's value in column `i` tried in turn. */
  method ScanColumn(samples: seq<Sample>, i: nat, entropy: real, best: Option<Candidate>, log2: real -> real)
    returns (entropy': real, best': Option<Candidate>)
    requires Table(samples) && i < |samples[0].attrs|
    ensures Choice(entropy', best') == Scan(ColumnCandidates(samples, i), Scores(samples, log2), Choice(entropy, best))
  {
    var size := |samples|;
    var column := ColumnCandidates(samples, i);
    entropy', best' := entropy, best;
    assert column[..0] == [];
    for j := 0 to size
      invariant Choice(entropy', best') == Scan(column[..j], Scores(samples, log2), Choice(entropy, best))
    {
      assert samples[j] in samples;
      var attributeValue := samples[j].attrs[i];
      assert Candidate(i, attributeValue) == column[j];
      TakeOneMore(column, j);
      ScanSnoc(column[..j], column[j], Scores(samples, log2), Choice(entropy, best));
      entropy', best' := Consider(samples, Candidate(i, attributeValue), entropy', best', log2);
    }
    assert column[..size] == column;
  }

  /** The body of the inner loop: score the pair with `totalEntropyOfAttribute` and keep it when strictly better. */
  method Consider(samples: seq<Sample>, c: Candidate, entropy: real, best: Option<Candidate>, log2: real -> real)
    returns (entropy': real, best': Option<Candidate>)
    requires |samples| > 0
    ensures Choice(entropy', best') == Step(Choice(entropy, best), c, Scores(samples, log2)(c))
  {
    var nextEntropy := TotalEntropyOfAttribute(samples, c.index, c.threshold, log2);
    entropy', best' := entropy, best;
    if nextEntropy < entropy {
      entropy' := nextEntropy;
      best' := Some(c);
    }
  }

  /** The choice scores at most the sentinel and at most every candidate seen. */
  lemma {:induction false} ScanMinimal(cands: seq<Candidate>, score: Candidate -> real)
    ensures Scan(cands, score, Initial).score <= Sentinel
    ensures forall c | c in cands :: Scan(cands, score, Initial).score <= score(c)
    decreases |cands|
  {
    if cands != [] {
      var init := cands[..|cands| - 1];
      ScanMinimal(init, score);
      assert cands == init + [cands[|cands| - 1]];
    }
  }

  /** A chosen pair is one of the candidates and carries the score; no choice means the sentinel was never beaten. */
  lemma {:induction false} ScanChoice(cands: seq<Candidate>, score: Candidate -> real)
    ensures Scan(cands, score, Initial).best.None? ==> Scan(cands, score, Initial).score == Sentinel
    ensures Scan(cands, score, Initial).best.Some? ==>
              Scan(cands, score, Initial).best.value in cands
              && Scan(cands, score, Initial).score == score(Scan(cands, score, Initial).best.value)
              && Scan(cands, score, Initial).score < Sentinel
    decreases |cands|
  {
    if cands != [] {
      ScanChoice(cands[..|cands| - 1], score);
    }
  }

  /** Ties go to the first candidate: every candidate before the chosen position scores strictly more. */
  lemma {:induction false} ScanFirst(cands: seq<Candidate>, score: Candidate -> real)
    ensures Scan(cands, score, Initial).best.Some? ==>
              exists p | 0 <= p < |cands| ::
                cands[p] == Scan(cands, score, Initial).best.value
                && forall q | 0 <= q < p :: score(cands[q]) > Scan(cands, score, Initial).score
    decreases |cands|
  {
    if cands != [] {
      var init := cands[..|cands| - 1];
      var ch := Scan(init, score, Initial);
      var last := cands[|cands| - 1];
      ScanFirst(init, score);
      ScanMinimal(init, score);
      if score(last) < ch.score {
        var p := |cands| - 1;
        forall q | 0 <= q < p ensures score(cands[q]) > score(last) {
          assert cands[q] == init[q];
        }
      } else if ch.best.Some? {
        var p :| 0 <= p < |init| && init[p] == ch.best.value
                 && forall q | 0 <= q < p :: score(init[q]) > ch.score;
        assert cands[p] == init[p];
        forall q | 0 <= q < p ensures score(cands[q]) > ch.score {
          assert cands[q] == init[q];
        }
      }
    }
  }

  /** A first candidate that no other candidate beats, and that beats the sentinel, is the one selected. */
  lemma FirstMinimumSelected(cands: seq<Candidate>, score: Candidate -> real)
    requires |cands| > 0 && score(cands[0]) < Sentinel
    requires forall d | d in cands :: score(cands[0]) <= score(d)
    ensures Scan(cands, score, Initial) == Choice(score(cands[0]), Some(cands[0]))
  {
    ScanMinimal(cands, score);
    ScanChoice(cands, score);
    ScanFirst(cands, score);
    var ch := Scan(cands, score, Initial);
    assert ch.best.Some?;
    var p :| 0 <= p < |cands| && cands[p] == ch.best.value
             && forall q | 0 <= q < p :: score(cands[q]) > ch.score;
    assert p == 0;
  }

  /** A candidate is a column index below the width paired with some sample's value in that column. */
  lemma {:induction false} CandidatesUpToMembers(samples: seq<Sample>, k: nat, c: Candidate)
    requires Table(samples) && k <= |samples[0].attrs|
    ensures c in CandidatesUpTo(samples, k) <==>
              c.index < k && exists j | 0 <= j < |samples| :: samples[j].attrs[c.index] == c.threshold
    decreases k
  {
    if k > 0 {
      CandidatesUpToMembers(samples, k - 1, c);
      var column := ColumnCandidates(samples, k - 1);
      if c.index == k - 1 && exists j | 0 <= j < |samples| :: samples[j].attrs[c.index] == c.threshold {
        var j :| 0 <= j < |samples| && samples[j].attrs[c.index] == c.threshold;
        assert column[j] == c;
      }
    }
  }

  /** The candidates are exactly the pairs of a column of the table and a value observed in that column. */
  lemma CandidateMembers(samples: seq<Sample>, c: Candidate)
    requires Table(samples)
    ensures c in Candidates(samples) <==>
              c.index < |samples[0].attrs| && exists j | 0 <= j < |samples| :: samples[j].attrs[c.index] == c.threshold
  {
    CandidatesUpToMembers(samples, |samples[0].attrs|, c);
  }

  /** The selected column exists and the selected threshold is a value some sample has in that column. */
  lemma MostInformativeObserved(samples: seq<Sample>, log2: real -> real)
    requires Table(samples)
    ensures MostInformative(samples, log2).Some? ==>
              var c := MostInformative(samples, log2).value;
              c.index < |samples[0].attrs|
              && exists j | 0 <= j < |samples| :: samples[j].attrs[c.index] == c.threshold
  {
    var cands := Candidates(samples);
    ScanChoice(cands, Scores(samples, log2));
    if MostInformative(samples, log2).Some? {
      CandidateMembers(samples, MostInformative(samples, log2).value);
    }
  }

  /** The selected pair scores below 5, no candidate scores less, and every candidate before it in loop order scores
      more. */
  lemma MostInformativeMinimal(samples: seq<Sample>, log2: real -> real)
    requires Table(samples)
    ensures MostInformative(samples, log2).Some? ==>
              var c := MostInformative(samples, log2).value;
              var cands := Candidates(samples);
              Score(samples, c, log2) < Sentinel
              && (forall d | d in cands :: Score(samples, c, log2) <= Score(samples, d, log2))
              && exists p | 0 <= p < |cands| ::
                   cands[p] == c && forall q | 0 <= q < p :: Score(samples, cands[q], log2) > Score(samples, c, log2)
  {
    var cands := Candidates(samples);
    var score := Scores(samples, log2);
    ScanChoice(cands, score);
    ScanMinimal(cands, score);
    ScanFirst(cands, score);
  }

  /** No selection means every candidate scores at least the sentinel 5. */
  lemma NoneMeansNothingBelowSentinel(samples: seq<Sample>, log2: real -> real)
    requires Table(samples)
    ensures MostInformative(samples, log2).None? <==>
              forall d | d in Candidates(samples) :: Score(samples, d, log2) >= Sentinel
  {
    var cands := Candidates(samples);
    var score := Scores(samples, log2);
    ScanChoice(cands, score);
    ScanMinimal(cands, score);
  }

  /** A threshold that separates the labels perfectly is found: something is selected, and it scores 0. */
  lemma PerfectSplitSelected(samples: seq<Sample>, c: Candidate, log2: real -> real)
    requires Table(samples) && Log2Like(log2) && c in Candidates(samples)
    requires SameDecision(Partition(samples, c.index, c.threshold).smaller)
    requires SameDecision(Partition(samples, c.index, c.threshold).larger)
    ensures MostInformative(samples, log2).Some?
    ensures Score(samples, MostInformative(samples, log2).value, log2) == 0.0
  {
    var cands := Candidates(samples);
    var score := Scores(samples, log2);
    PureSplitEntropy(samples, c.index, c.threshold, log2);
    ScanMinimal(cands, score);
    ScanChoice(cands, score);
    var b := Scan(cands, score, Initial).best.value;
    SplitEntropyNonNegative(samples, b.index, b.threshold, log2);
  }
}
