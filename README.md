# Decision-tree induction and classification

This project models the core of a browser decision-tree learner, `js/decision_tree.js`. The learner builds a binary
tree from a table of numeric samples, each with a class label in its last column. At every step it chooses the
(column, threshold) pair whose `value <= threshold` split has the smallest weighted label entropy. It stops on a
pure set of samples, at a depth cap, or when the chosen split leaves one side empty. It then classifies a sample by
walking the tree, going to the first child on `<=` and to the second child otherwise.

The modules follow the source's functions:

- `Samples`: a parsed row, `Sample(attrs, classLabel)`, and the numeric test `parseFloat(sample[i]) <= limit`.
  A column past the end of a row parses to `NaN`, so the test is false there. The label's own index is treated
  the same way (see `Trees.Classify` under "## Left out").
- `StringOrder`: the default order of `Array.prototype.sort` on strings, and that sort. `entropyOf` applies it to
  its label keys.
- `LabelEntropy`: `areSameDecision` and `entropyOf`. Each loop is a method proved equal to a specification
  function. `Math.log2` is a parameter. Lemmas that need its values ask only that it is 0 at 1 and negative
  on (0, 1) (`Log2Like`).
- `Split`: the threshold partition, written twice in the source, and `totalEntropyOfAttribute`.
- `Selector`: `mostInformativeAttribute`. Its nested loops are proved equal to a scan over the candidates in
  column-major, then sample-major order. The scan starts at the sentinel 5 and moves only on a strictly smaller score.
  `None` stands for the `[NaN, NaN]` pair the source returns when nothing scores below 5.
- `Trees`: `Leaf`, `Node` (with its two children named `smaller` and `larger`) and `classify`.
- `Builder`: `decisionTree` as a recursive method. It is proved equal to the function `Build`, and the tree
  guarantees are proved about `Build`.
- `Scenarios`: a worked example, a two-class table that the builder splits once on its first column.

Where the code differs from what a reader might expect, the model follows the code:

- The header passed to `decisionTree` still holds the label column. The fallback decision
  `attributes.at(-1) + ": " + label` therefore names the label column (`Builder.Fallback`).
- `totalEntropyOfAttribute` calls `entropyOf` on an empty side too. Its loops then do nothing, so it yields 0,
  and the weight of that side is 0 as well.
- A table with no attribute columns, or one where no candidate scores below the sentinel 5, is not an error.
  The selector returns the `NaN` pair, no sample is `<= NaN`, and the builder emits the fallback leaf
  (`Builder.NoSplitBelowSentinel`). The sentinel 5 is not a true upper bound on entropy: with more than 32
  distinct labels, a split can score 5 or more.

## Model

| member | source | states |
|---|---|---|
| LabelEntropy.AreSameDecision | js/decision_tree.js:148-162 | returns true exactly when every sample's label equals the first sample's label; a non-empty input is required, since the first sample is read |
| LabelEntropy.CollectKeys | js/decision_tree.js:114-119 | the key list the `includes`/`push` loop builds is the labels in order of first occurrence |
| LabelEntropy.FirstOccurrencesFacts | js/decision_tree.js:114-119 | those keys are pairwise distinct and are exactly the labels that occur |
| StringOrder.Sort | js/decision_tree.js:120 | the sorted keys are a permutation of the keys |
| StringOrder.LessIrreflexive | js/decision_tree.js:120 | no string sorts before itself |
| StringOrder.LessTransitive | js/decision_tree.js:120 | the string order is transitive |
| StringOrder.LessTotal | js/decision_tree.js:120 | of two different strings, one sorts before the other |
| StringOrder.StrictlySortedNoDup | js/decision_tree.js:120 | a strictly sorted list has no repeated key |
| StringOrder.Insert | js/decision_tree.js:120 | one insertion step adds exactly the inserted key |
| StringOrder.InsertStrictlySorted | js/decision_tree.js:120 | inserting a new key into a strictly sorted list keeps it strictly sorted |
| StringOrder.SortStrictlySorted | js/decision_tree.js:120 | sorting distinct keys gives them in strictly increasing order |
| LabelEntropy.SortedKeysFacts | js/decision_tree.js:114-120 | the keys after `sort()` are strictly increasing, distinct, and exactly the labels present |
| LabelEntropy.Count | js/decision_tree.js:126-130 | a label's count is at most the number of samples |
| LabelEntropy.Tally | js/decision_tree.js:123-131 | one count per key, each the number of samples carrying that key |
| LabelEntropy.CountKeys | js/decision_tree.js:123-131 | after the nested loops, the dictionary's keys are exactly the collected keys, and each maps to the number of samples carrying it, so the `for ... in` loop visits the keys `EntropyOf` sums over |
| LabelEntropy.CountPositive | js/decision_tree.js:123-131 | a label that occurs is counted at least once |
| LabelEntropy.CountAll | js/decision_tree.js:114-131 | for samples of a single label, the only key is that label and its count is the number of samples |
| LabelEntropy.DistributionFacts | js/decision_tree.js:122-131 | one count per sorted key, each at least 1, and the counts add up to the number of samples |
| LabelEntropy.EntropyOf | js/decision_tree.js:107-141 | the method returns `Entropy`, the sum of the information terms over the sorted keys' counts |
| LabelEntropy.InformationNonNegative | js/decision_tree.js:134-137 | with counts between 1 and the size, the running `entropy -= p * log2(p)` total stays non-negative |
| LabelEntropy.InformationPositive | js/decision_tree.js:134-137 | with every count strictly below the size, the total is strictly positive |
| LabelEntropy.EntropyNonNegative | js/decision_tree.js:107-141 | entropy is never negative |
| LabelEntropy.EntropyOfPure | js/decision_tree.js:107-141 | samples of a single label, and the empty list, have entropy 0 |
| LabelEntropy.EntropyZeroIffPure | js/decision_tree.js:107-141 | entropy is 0 exactly when all samples carry one label |
| Split.Partition | js/decision_tree.js:69-75 | the two sides together have as many samples as the input |
| Split.SplitAt | js/decision_tree.js:69-75 | the push loop builds exactly `Partition`: each side in input order |
| Split.PartitionPermutation | js/decision_tree.js:187-193 | the two sides together are a permutation of the input |
| Split.PartitionTests | js/decision_tree.js:69-75 | the smaller side holds only samples at most the limit, the larger side only the others |
| Split.PartitionSides | js/decision_tree.js:187-193 | an input sample is on the smaller side exactly when it is at most the limit, and on the larger side exactly when not |
| Split.PartitionSubset | js/decision_tree.js:187-193 | both sides are drawn from the input |
| Split.PartitionAppend | js/decision_tree.js:69-75 | partitioning a concatenation concatenates the partitions, so each side keeps input order |
| Split.OneSidedPartition | js/decision_tree.js:187-195 | an empty side means the other side is the whole input |
| Split.AllAtMostOneSided | js/decision_tree.js:187-195 | when every sample is at most the limit, the larger side is empty |
| Split.TotalEntropyOfAttribute | js/decision_tree.js:62-84 | the method returns `SplitEntropy`: each side's entropy weighted by its share of the samples |
| Split.WeightsSumToOne | js/decision_tree.js:78-80 | the two weights add up to 1 |
| Split.OneSidedSplitEntropy | js/decision_tree.js:78-80 | a one-sided split scores the entropy of the whole input, since the empty side contributes 0 |
| Split.SplitEntropyNonNegative | js/decision_tree.js:78-80 | a split's score is never negative |
| Split.PureSplitEntropy | js/decision_tree.js:78-80 | a split leaving one label on each side scores 0 |
| Selector.ScanSnoc | js/decision_tree.js:40-50 | scanning one more candidate is one more strict-`<` step |
| Selector.ScanAppend | js/decision_tree.js:39-51 | scanning one column after another is scanning the concatenation, which is the outer loop's step |
| Selector.MostInformativeAttribute | js/decision_tree.js:30-55 | the nested loops return `MostInformative`, the scan of all candidates in loop order from the sentinel 5 |
| Selector.ScanColumn | js/decision_tree.js:40-50 | the inner loop over samples performs the scan of column `i`'s candidates |
| Selector.Consider | js/decision_tree.js:41-49 | one iteration scores the pair and keeps it only when strictly below the running minimum |
| Selector.ScanMinimal | js/decision_tree.js:43-49 | the running minimum is at most 5 and at most every score seen |
| Selector.ScanChoice | js/decision_tree.js:33-54 | a chosen pair is a candidate, carries the minimum and is below 5; no choice leaves the minimum at 5 |
| Selector.ScanFirst | js/decision_tree.js:45 | ties go to the first candidate: every candidate before the chosen one scores strictly more |
| Selector.FirstMinimumSelected | js/decision_tree.js:39-54 | a first candidate below 5 that nothing beats is the one selected |
| Selector.CandidatesUpToMembers | js/decision_tree.js:39-41 | the candidates of the first `k` columns are the pairs of such a column and a value observed there |
| Selector.CandidateMembers | js/decision_tree.js:34-41 | the candidates are exactly the pairs of an attribute column and a value some sample has in it |
| Selector.MostInformativeObserved | js/decision_tree.js:34-54 | a selected index is below the number of attribute columns, and its threshold is some sample's value in that column |
| Selector.MostInformativeMinimal | js/decision_tree.js:33-54 | the selected pair scores below 5, no candidate scores less, and every earlier candidate scores more |
| Selector.NoneMeansNothingBelowSentinel | js/decision_tree.js:33-36 | nothing is selected exactly when every candidate scores at least 5 |
| Selector.PerfectSplitSelected | js/decision_tree.js:30-55 | when some candidate separates the labels perfectly, a pair is selected and it scores 0 |
| Trees.Route | js/decision_tree.js:373-385 | `classify`'s walk always ends at a leaf |
| Trees.Classify | js/decision_tree.js:373-385 | whatever the sample, `classify` answers one of the decisions written in the tree's leaves |
| Trees.ClassifyAnswersRoute | js/decision_tree.js:373-385 | `classify` answers the decision of the leaf its walk reaches |
| Trees.RouteFindsHolder | js/decision_tree.js:373-385 | in a tree separated by its own thresholds, the walk takes each held sample to the leaf holding it |
| Builder.DecisionTree | js/decision_tree.js:169-206 | the recursive method returns `Build` |
| Builder.BuildStops | js/decision_tree.js:171-174 | a pure input, or one at the depth cap, becomes one leaf that holds the input and answers the first label for every sample |
| Builder.NoSplitBelowSentinel | js/decision_tree.js:180-197 | below the cap with mixed labels and no candidate under 5, the input becomes the fallback leaf `"<label header>: <first label>"` |
| Builder.DegenerateSplitLeaf | js/decision_tree.js:180-197 | below the cap with mixed labels, a selected pair whose split leaves one side empty gives the fallback leaf holding all the input samples |
| Builder.InseparableLeaf | js/decision_tree.js:180-197 | samples that agree on every column but not on the label become the fallback leaf |
| Builder.BuildSplits | js/decision_tree.js:195-204 | a node tests the selected pair, both sides of its split are non-empty and strictly smaller than the input, and each child holds exactly its side |
| Builder.BuildKeepsSamples | js/decision_tree.js:185-201 | the leaves together hold exactly the input samples, as a multiset |
| Builder.BuildSeparated | js/decision_tree.js:187-201 | each node's first subtree holds only samples at most its threshold, and its second subtree only the others |
| Builder.BuildNodeTest | js/decision_tree.js:180-204 | a root node's index is an attribute column, its name is that column's header, and its threshold is a value a sample under it has there |
| Builder.BuildNamed | js/decision_tree.js:169-206 | the same holds at every node of the tree |
| Builder.BuildDecided | js/decision_tree.js:169-206 | every leaf holds samples, and answers its first sample's label or, only for mixed labels, the fallback text |
| Builder.BuildDepthCap | js/decision_tree.js:169-206 | from `depth <= maxDepth`, the tree is at most `maxDepth - depth` nodes deep |
| Builder.BuildShallow | js/decision_tree.js:195-201 | the tree is shallower than the number of samples, since every split removes a sample from each side |
| Builder.RouteDecided | js/decision_tree.js:373-385 | in a tree whose leaves are decided, `classify` reaches a decided leaf |
| Builder.TrainingSampleClassified | js/decision_tree.js:373-385 | a training sample reaches the leaf that holds it, and when that leaf is pure, `classify` gives back the sample's own label |
| Scenarios.TwoClassSelection | js/decision_tree.js:30-55 | on a two-class table, the selector picks column `x` at threshold 1 |
| Scenarios.TwoClassTree | js/decision_tree.js:169-206 | the builder makes one node on `x` at 1 over a class-A leaf and a class-B leaf |
| Scenarios.TwoClassClassify | js/decision_tree.js:373-385 | that tree classifies any sample as A when its `x` is at most 1, and as B otherwise |

## Left out

- The DOM rendering of the tree and of the test table (`treeToHtml`, `getNodeHTML`, `getLeafHTML`, `buildTestDataTable`) is user interface only.
- The file reader, the text splitting of the loaded table and the event listeners are input plumbing. The model starts from parsed samples and a header.
- `divideData` and `getRandomInt` depend on `Math.random`. The train/test split happens outside the core.
- `getMostFrequent` is never called by the learner, so it is not modelled.
- `Math.log2` is a parameter, and lemmas assume only `Log2Like` of it. Floating-point rounding is not modelled: all arithmetic is on reals.
- `parseFloat` is not modelled: a sample's attributes are already numbers. Of the `NaN` cases, the model keeps a column past the end of a row (the `<=` test is false) and the `[NaN, NaN]` pair of the selector (`None`). A malformed number is not kept.
- The global `maxDepth` is a parameter of `Build` and `DecisionTree`. The global `ratio` belongs to the left-out train/test split.
- The order in which `for ... in` visits the keys of `valueDistribution` is modelled as their insertion order. JavaScript visits integer-like keys first, in numeric order. With real arithmetic the sum does not depend on that order, but with floating point it could.
- StringOrder.Less compares characters as Dafny code points. JavaScript's `sort()` compares UTF-16 code units, which differs only outside the Basic Multilingual Plane.
- LabelEntropy.EntropyNonNegative: the upper bound of entropy, log2 of the number of labels, is not proved. Only non-negativity and the zero case are.
- Selector.MostInformativeAttribute: requires a non-empty, rectangular table. The source requires only a non-empty one. In a ragged table the loops read a shorter row's label or a missing column as an attribute value, and skip a longer row's extra columns. The model does not cover that.
- Builder.DecisionTree: requires non-empty samples whose rows, attributes plus label, are each exactly as wide as the header. The source fails on empty input and does not check row widths.
- LabelEntropy.CountKeys: the source's dictionary is a plain object, so the label `"__proto__"` never becomes one of its keys, and writing a count to it does nothing. The model's map counts that label like any other.
- LabelEntropy.EntropyOf: for the same reason, the source leaves the label `"__proto__"` out of the entropy sum, while the model includes its term. For samples labelled `"__proto__"` and `"A"`, the source gives the `"A"` term alone. `SplitEntropy` and the selector inherit this difference.
- Trees.Classify: on a row one column short, the source reads the label at the missing attribute's index, and a numeric label can pass the `<=` test. The model treats that column as missing, so the test is false.
- Selector.ScanColumn and Selector.Consider split the body of the inner loop into a method of its own. In the source it is inline.
