/** The decorative helix: a one-time layout pass that places a fixed
    number of nodes evenly down the container. */
module HelixLayout {

  const NodeCount: nat := 10

  /** Vertical spacing between nodes, in percent of the container: 100 / 10,
      which is exact. */
  const Spacing: nat := 100 / NodeCount

  /** One .helix-node: its top offset in percent and its animation delay in
      tenths of a second. */
  datatype HelixNode = HelixNode(topPercent: nat, delayTenths: nat)

  /** The node the i-th iteration creates: top = i * (100 / 10) + 5 percent,
      delay = i * 0.2 seconds. The division is exact, so nodes sit 10%
      apart and a node's top gives back its index. */
  function NodeAt(i: nat): (r: HelixNode)
    ensures r.topPercent == 10 * i + 5 && r.delayTenths == 2 * i
    ensures (r.topPercent - 5) / 10 == i
    ensures i < NodeCount ==> 5 <= r.topPercent <= 95
  {
    HelixNode(i * Spacing + 5, 2 * i)
  }

  /** The loop of the layout pass: the nodes appended to the container, in order. */
  method LayOutNodes() returns (nodes: seq<HelixNode>)
    ensures |nodes| == NodeCount
    ensures forall i :: 0 <= i < |nodes| ==> nodes[i] == NodeAt(i)
  {
    nodes := [];
    for i := 0 to NodeCount
      invariant |nodes| == i
      invariant forall j :: 0 <= j < i ==> nodes[j] == NodeAt(j)
    {
      nodes := nodes + [HelixNode(i * (100 / NodeCount) + 5, 2 * i)];
    }
  }

  /** Each node is 10% below the previous one and 0.2 s later, and the
      nodes are symmetric about the middle of the container. */
  lemma LayoutShape(i: nat)
    requires i < NodeCount
    ensures i + 1 < NodeCount ==> NodeAt(i + 1).topPercent == NodeAt(i).topPercent + 10
    ensures i + 1 < NodeCount ==> NodeAt(i + 1).delayTenths == NodeAt(i).delayTenths + 2
    ensures NodeAt(i).topPercent + NodeAt(NodeCount - 1 - i).topPercent == 100
  {
  }
}
