/** The tree `decisionTree` builds (`Leaf` and `Node` with its two children) and `classify`, which walks it. */
module Trees {
  import opened Samples

  /** A `Node`'s `children` array always holds two trees, built from the smaller and the larger side. */
  datatype Tree =
    | Leaf(decision: string, samples: seq<Sample>)
    | Node(attribute: string, attributeValue: real, smaller: Tree, larger: Tree, attributeIndex: nat)

  /** `classify(sample, tree)`: a leaf answers its decision; a node goes to its first child when the sample's value in
      the node's column is at most the node's threshold, and to its second child otherwise. */
  function Classify(s: Sample, t: Tree): (decision: string)
    ensures decision in Decisions(t)
  {
    match t
    case Leaf(decision, _) => decision
    case Node(_, limit, smaller, larger, index) =>
      if AtMost(s, index, limit) then Classify(s, smaller) else Classify(s, larger)
  }

  /** The leaf `classify` stops at. */
  function Route(s: Sample, t: Tree): (leaf: Tree)
    ensures leaf.Leaf?
  {
    match t
    case Leaf(_, _) => t
    case Node(_, limit, smaller, larger, index) =>
      if AtMost(s, index, limit) then Route(s, smaller) else Route(s, larger)
  }

  /** The decisions written in the leaves. */
  function Decisions(t: Tree): set<string>
  {
    match t
    case Leaf(decision, _) => {decision}
    case Node(_, _, smaller, larger, _) => Decisions(smaller) + Decisions(larger)
  }

  /** The samples kept in the leaves, left to right. */
  function LeafSamples(t: Tree): seq<Sample>
  {
    match t
    case Leaf(_, samples) => samples
    case Node(_, _, smaller, larger, _) => LeafSamples(smaller) + LeafSamples(larger)
  }

  /** The number of nodes on the longest path from the root to a leaf. */
  function Height(t: Tree): nat
  {
    match t
    case Leaf(_, _) => 0
    case Node(_, _, smaller, larger, _) =>
      var h1, h2 := Height(smaller), Height(larger);
      1 + if h1 < h2 then h2 else h1
  }

  /** `classify` answers with the decision of the leaf it reaches. */
  lemma {:induction false} ClassifyAnswersRoute(s: Sample, t: Tree)
    ensures Classify(s, t) == Route(s, t).decision
  {
    match t
    case Leaf(_, _) =>
    case Node(_, limit, smaller, larger, index) =>
      if AtMost(s, index, limit) {
        ClassifyAnswersRoute(s, smaller);
      } else {
        ClassifyAnswersRoute(s, larger);
      }
  }

  /** The shape `decisionTree` guarantees: each node's first child holds only samples whose value in the node's column is
      at most its threshold, the second child only the others. */
  predicate Separated(t: Tree)
  {
    match t
    case Leaf(_, _) => true
    case Node(_, limit, smaller, larger, index) =>
      Separated(smaller) && Separated(larger)
      && (forall s | s in LeafSamples(smaller) :: AtMost(s, index, limit))
      && (forall s | s in LeafSamples(larger) :: !AtMost(s, index, limit))
  }

  /** In a separated tree, `classify` takes every sample the tree holds to the leaf that holds it. */
  lemma {:induction false} RouteFindsHolder(s: Sample, t: Tree)
    requires Separated(t) && s in LeafSamples(t)
    ensures s in Route(s, t).samples
  {
    match t
    case Leaf(_, _) =>
    case Node(_, limit, smaller, larger, index) =>
      if s in LeafSamples(smaller) {
        RouteFindsHolder(s, smaller);
      } else {
        RouteFindsHolder(s, larger);
      }
  }
}
