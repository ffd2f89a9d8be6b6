/** A worked example: two well separated classes in a two-column table. */
module Scenarios {
  import opened Samples
  import opened LabelEntropy
  import opened Split
  import opened Selector
  import opened Trees
  import opened Builder

  function Table2(): seq<Sample>
  {
    [Sample([1.0, 1.0], "A"), Sample([1.0, 2.0], "A"), Sample([5.0, 5.0], "B"), Sample([5.0, 6.0], "B")]
  }

  const Header: seq<string> := ["x", "y", "label"]

  lemma TableCandidates()
    ensures Table(Table2())
    ensures Candidates(Table2())[0] == Candidate(0, 1.0)
  {
    var samples := Table2();
    assert Table(samples);
    assert CandidatesUpTo(samples, 1) == ColumnCandidates(samples, 0);
    assert Candidates(samples) == CandidatesUpTo(samples, 1) + ColumnCandidates(samples, 1);
  }

  /** The first two samples are class A, the last two class B. */
  lemma TableHalves()
    ensures SameDecision(Table2()[..2]) && Table2()[..2][0].classLabel == "A"
    ensures SameDecision(Table2()[2..]) && Table2()[2..][0].classLabel == "B"
    ensures !SameDecision(Table2())
    ensures Conforms(Table2(), 2) && Conforms(Table2()[..2], 2) && Conforms(Table2()[2..], 2)
  {
    var samples := Table2();
    assert samples[..2] == [samples[0], samples[1]];
    assert samples[2..] == [samples[2], samples[3]];
    assert samples[2].classLabel != samples[0].classLabel;
  }

  /** Column `x` at threshold 1 separates the two classes. */
  lemma TablePartition()
    ensures Partition(Table2(), 0, 1.0) == Sides(Table2()[..2], Table2()[2..])
  {
    var samples := Table2();
    assert samples[..3][..2] == samples[..2];
    assert samples[..2][..1] == samples[..1];
    assert samples[..1][..0] == [];
    assert Partition(samples[..1], 0, 1.0) == Sides(samples[..1], []);
    assert Partition(samples[..2], 0, 1.0) == Sides(samples[..2], []);
    assert Partition(samples[..3], 0, 1.0) == Sides(samples[..2], samples[2..3]);
    assert samples[..4] == samples;
  }

  /** That split is the first candidate and scores 0, so the search selects it. */
  lemma TwoClassSelection(log2: real -> real)
    requires Log2Like(log2)
    ensures Table(Table2()) && MostInformative(Table2(), log2) == Some(Candidate(0, 1.0))
  {
    var samples := Table2();
    TableCandidates();
    TablePartition();
    var cands := Candidates(samples);
    var score := Scores(samples, log2);
    TableHalves();
    PureSplitEntropy(samples, 0, 1.0, log2);
    forall d | d in cands ensures score(cands[0]) <= score(d) {
      SplitEntropyNonNegative(samples, d.index, d.threshold, log2);
    }
    FirstMinimumSelected(cands, score);
  }

  /** The builder puts one node on column `x` at 1 over a leaf for each class. */
  lemma TwoClassTree(log2: real -> real)
    requires Log2Like(log2)
    ensures Build(Table2(), Header, 0, 5, log2)
            == Node("x", 1.0, Leaf("A", Table2()[..2]), Leaf("B", Table2()[2..]), 0)
  {
    var samples := Table2();
    TwoClassSelection(log2);
    TablePartition();
    TableHalves();
    var left := Build(samples[..2], Header, 1, 5, log2);
    var right := Build(samples[2..], Header, 1, 5, log2);
    assert left == Leaf("A", samples[..2]);
    assert right == Leaf("B", samples[2..]);
  }

  /** Any sample, seen or new, is classified by its `x` value alone: class A up to 1, class B above. */
  lemma TwoClassClassify(log2: real -> real, s: Sample)
    requires Log2Like(log2)
    ensures Classify(s, Build(Table2(), Header, 0, 5, log2)) == if AtMost(s, 0, 1.0) then "A" else "B"
  {
    TwoClassTree(log2);
  }
}
