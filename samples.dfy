/** Samples of the data table and the numeric test that both the partition and the classifier apply to them. */
module Samples {

  datatype Option<T> = None | Some(value: T)

  /** One row of the table after parsing: the attribute columns as numbers, then the class label (the last column). */
  datatype Sample = Sample(attrs: seq<real>, classLabel: string)

  /** `parseFloat(sample[index]) <= limit`. A column past the end of the row parses to NaN, and NaN is not `<=` anything.
      Index `|attrs|` is the row's label column; the test treats it as missing too. */
  predicate AtMost(s: Sample, index: nat, limit: real) {
    index < |s.attrs| && s.attrs[index] <= limit
  }

  /** Every sample has `width` attribute columns (the table is rectangular). */
  predicate Conforms(samples: seq<Sample>, width: nat) {
    forall s | s in samples :: |s.attrs| == width
  }

  /** Some sample carries label `l`. */
  predicate HasLabel(samples: seq<Sample>, l: string) {
    exists i | 0 <= i < |samples| :: samples[i].classLabel == l
  }

  /** Every sample carries the label of the first one (vacuous for no samples). */
  predicate SameDecision(samples: seq<Sample>) {
    forall i | 0 <= i < |samples| :: samples[i].classLabel == samples[0].classLabel
  }
}
