/**
 * BlockSigner.TreeNode (ksi-net-api/Service/BlockSigner.TreeNode.cs): a node
 * of the Merkle tree the block signer builds for local aggregation, the
 * validation of a tree before it is printed, and the step that lists the
 * children of one printed level.
 *
 * A node is a value with an identity: `id` stands for the object reference,
 * so the reference comparisons of the source compare ids. Left and Right
 * are the node's children; Parent is the identity of the node it points
 * back to.
 */
module TreeNodes {
  import opened Wrappers
  import opened Exceptions
  import opened Hashing
  import opened AggregationHashChains

  /** TreeNode.Level is a uint. */
  type uint32 = x: nat | x < 0x1_0000_0000

  datatype TreeNode = TreeNode(
    id: nat,
    level: uint32,
    documentHash: Option<DataHash>,
    metaData: Option<MetaData>,
    nodeHash: Option<DataHash>,
    parent: Option<nat>,
    left: Option<TreeNode>,
    right: Option<TreeNode>,
    isLeftNode: bool)

  const LeftParentMessage := "Left child parent does not match current node."
  const LeftMarkMessage := "Left child is not marked as left."
  const RightMarkMessage := "Right child is not marked as right."
  const LeafCountMessage := "Invalid tree. Leaf count does not match."
  /** The message for an expected leaf at the given position whose level is not 0. */
  function LeafLevelMessage(position: nat): string {
    "Invalid tree. Leaf must have level value 0. Position: " + Decimal(position)
  }

  /** The message for an expected leaf that is not the tree's leaf at the given position. */
  function LeavesMismatchMessage(position: nat): string {
    "Invalid tree. Leaves at position " + Decimal(position) + " do not match."
  }

  predicate Childless(node: TreeNode) {
    node.left.None? && node.right.None?
  }

  // ------------------------------------------------------------ constructors

  /** TreeNode(uint level): an inner node with nothing set but its level. */
  function NewLevelNode(id: nat, level: uint32): (r: TreeNode)
    ensures r.id == id && r.level == level && Childless(r) && r.parent.None? && !r.isLeftNode
    ensures r.documentHash.None? && r.metaData.None? && r.nodeHash.None?
  {
    TreeNode(id, level, None, None, None, None, None, None, false)
  }

  /** TreeNode(documentHash, metaData): a leaf whose node hash is the document hash; a null hash is refused. */
  function NewDocumentNode(id: nat, documentHash: Option<DataHash>, metaData: Option<MetaData>): (r: Result<TreeNode, Error>)
    ensures documentHash.None? ==> r == Err(ArgumentNull("documentHash"))
    ensures documentHash.Some? ==>
              && r.Ok? && r.value.id == id && r.value.level == 0 && Childless(r.value)
              && r.value.documentHash == documentHash && r.value.nodeHash == documentHash && r.value.metaData == metaData
  {
    if documentHash.None? then Err(ArgumentNull("documentHash"))
    else Ok(TreeNode(id, 0, documentHash, metaData, documentHash, None, None, None, false))
  }

  /** TreeNode(metaData): a leaf holding only metadata; null metadata is refused. */
  function NewMetaDataNode(id: nat, metaData: Option<MetaData>): (r: Result<TreeNode, Error>)
    ensures metaData.None? ==> r == Err(ArgumentNull("metaData"))
    ensures metaData.Some? ==>
              && r.Ok? && r.value.id == id && r.value.level == 0 && Childless(r.value)
              && r.value.metaData == metaData && r.value.documentHash.None? && r.value.nodeHash.None?
  {
    if metaData.None? then Err(ArgumentNull("metaData"))
    else Ok(TreeNode(id, 0, None, metaData, None, None, None, None, false))
  }

  // -------------------------------------------------------------- the tree

  /** A node of the tree below and including root. */
  predicate InTree(x: TreeNode, root: TreeNode)
    decreases root
  {
    x == root
    || (root.left.Some? && InTree(x, root.left.value))
    || (root.right.Some? && InTree(x, root.right.value))
  }

  /** Every child points back to its parent and carries the flag of its side, all the way down. */
  predicate Linked(node: TreeNode)
    decreases node
  {
    && (node.left.Some? ==>
          node.left.value.parent == Some(node.id) && node.left.value.isLeftNode && Linked(node.left.value))
    && (node.right.Some? ==>
          node.right.value.parent == Some(node.id) && !node.right.value.isLeftNode && Linked(node.right.value))
  }

  /**
   * GetLowestLevelNodes: the nodes without children, left to right: the node
   * itself when it has none.
   */
  function GetLowestLevelNodes(node: TreeNode): (r: seq<TreeNode>)
    ensures |r| > 0
    ensures Childless(node) ==> r == [node]
    decreases node
  {
    if Childless(node) then [node]
    else
      (if node.left.Some? then GetLowestLevelNodes(node.left.value) else [])
      + (if node.right.Some? then GetLowestLevelNodes(node.right.value) else [])
  }

  /** GetLowestLevelNodes lists nodes of the tree without children, and every one of them. */
  lemma {:induction false} LowestLevelNodesAreLeaves(node: TreeNode)
    ensures forall k :: 0 <= k < |GetLowestLevelNodes(node)| ==>
              Childless(GetLowestLevelNodes(node)[k]) && InTree(GetLowestLevelNodes(node)[k], node)
    ensures forall x :: InTree(x, node) && Childless(x) ==> x in GetLowestLevelNodes(node)
    decreases node
  {
    if !Childless(node) {
      var fromLeft := if node.left.Some? then GetLowestLevelNodes(node.left.value) else [];
      var fromRight := if node.right.Some? then GetLowestLevelNodes(node.right.value) else [];
      if node.left.Some? {
        LowestLevelNodesAreLeaves(node.left.value);
      }
      if node.right.Some? {
        LowestLevelNodesAreLeaves(node.right.value);
      }
      assert GetLowestLevelNodes(node) == fromLeft + fromRight;
      forall x | InTree(x, node) && Childless(x)
        ensures x in GetLowestLevelNodes(node)
      {
        if x != node {
          if node.left.Some? && InTree(x, node.left.value) {
            assert x in fromLeft;
          } else {
            assert x in fromRight;
          }
        }
      }
    }
  }

  /** The error ValidateChildNodes raises for a child of node, or none. */
  function ChildError(node: TreeNode, child: TreeNode, isLeft: bool): Option<Error> {
    if child.parent != Some(node.id) then Some(Plain(LeftParentMessage))
    else if isLeft && !child.isLeftNode then Some(Plain(LeftMarkMessage))
    else if !isLeft && child.isLeftNode then Some(Plain(RightMarkMessage))
    else None
  }

  /**
   * ValidateChildNodes: it throws unless every child points back to its
   * parent and is flagged for its side, and then returns the same leaves as
   * GetLowestLevelNodes. A right child with a wrong parent raises the left
   * child's message, as the source does.
   */
  function ValidateChildNodes(node: TreeNode): (r: Result<seq<TreeNode>, Error>)
    ensures r.Ok? <==> Linked(node)
    ensures r.Ok? ==> r.value == GetLowestLevelNodes(node)
    decreases node
  {
    var fromLeft :-
      if node.left.None? then Ok([])
      else if ChildError(node, node.left.value, true).Some? then Err(ChildError(node, node.left.value, true).value)
      else ValidateChildNodes(node.left.value);
    var fromRight :-
      if node.right.None? then Ok([])
      else if ChildError(node, node.right.value, false).Some? then Err(ChildError(node, node.right.value, false).value)
      else ValidateChildNodes(node.right.value);
    var children := fromLeft + fromRight;
    Ok(if |children| == 0 then [node] else children)
  }

  /** Position i of the expected leaves passes ValidateTree's loop: level 0, and the same node as the tree's leaf. */
  predicate LeafMatches(lowest: seq<TreeNode>, children: seq<TreeNode>, i: nat)
    requires i < |lowest| && i < |children|
  {
    lowest[i].level == 0 && lowest[i].id == children[i].id
  }

  /**
   * ValidateTree: it throws what ValidateChildNodes throws, then when the
   * leaf counts differ, and then for the first position whose expected leaf
   * does not have level 0 or is not the tree's leaf there; and otherwise it
   * returns normally.
   */
  method ValidateTree(root: TreeNode, lowest: seq<TreeNode>) returns (r: Result<(), Error>)
    ensures ValidateChildNodes(root).Err? ==> r == Err(ValidateChildNodes(root).error)
    ensures ValidateChildNodes(root).Ok? && |ValidateChildNodes(root).value| != |lowest| ==> r == Err(Plain(LeafCountMessage))
    ensures r.Ok? <==>
              && ValidateChildNodes(root).Ok? && |ValidateChildNodes(root).value| == |lowest|
              && forall i :: 0 <= i < |lowest| ==> LeafMatches(lowest, ValidateChildNodes(root).value, i)
    ensures forall i :: 0 <= i < |lowest| && ValidateChildNodes(root).Ok? && |ValidateChildNodes(root).value| == |lowest|
                        && (forall j :: 0 <= j < i ==> LeafMatches(lowest, ValidateChildNodes(root).value, j))
                        && !LeafMatches(lowest, ValidateChildNodes(root).value, i) ==>
                          r == Err(Plain(if lowest[i].level != 0 then LeafLevelMessage(i) else LeavesMismatchMessage(i)))
  {
    var validated := ValidateChildNodes(root);
    if validated.Err? {
      return Err(validated.error);
    }
    var children := validated.value;
    if |children| != |lowest| {
      return Err(Plain(LeafCountMessage));
    }
    for i := 0 to |lowest|
      invariant forall j :: 0 <= j < i ==> LeafMatches(lowest, children, j)
    {
      if !LeafMatches(lowest, children, i) {
        FirstMismatch(lowest, children, i);
        if lowest[i].level != 0 {
          return Err(Plain(LeafLevelMessage(i)));
        }
        if lowest[i].id != children[i].id {
          return Err(Plain(LeavesMismatchMessage(i)));
        }
      }
    }
    r := Ok(());
  }

  /** ValidateTree's two per-position messages each name the position they report. */
  lemma PositionMessagesDetermine(i: nat, j: nat)
    ensures LeafLevelMessage(i) == LeafLevelMessage(j) ==> i == j
    ensures LeavesMismatchMessage(i) == LeavesMismatchMessage(j) ==> i == j
  {
    var prefix := "Invalid tree. Leaf must have level value 0. Position: ";
    if LeafLevelMessage(i) == LeafLevelMessage(j) {
      assert prefix + Decimal(i) + "" == LeafLevelMessage(i);
      assert prefix + Decimal(j) + "" == LeafLevelMessage(j);
      SplicedNumberDetermined(prefix, i, j, "");
    }
    if LeavesMismatchMessage(i) == LeavesMismatchMessage(j) {
      SplicedNumberDetermined("Invalid tree. Leaves at position ", i, j, " do not match.");
    }
  }

  /** A position that fails after every earlier one passed is the first that fails. */
  lemma FirstMismatch(lowest: seq<TreeNode>, children: seq<TreeNode>, i: nat)
    requires i < |lowest| == |children|
    requires forall j :: 0 <= j < i ==> LeafMatches(lowest, children, j)
    requires !LeafMatches(lowest, children, i)
    ensures forall k :: (0 <= k < |lowest| && (forall j :: 0 <= j < k ==> LeafMatches(lowest, children, j))
                         && !LeafMatches(lowest, children, k)) ==> k == i
  {
  }

  predicate LeavesAtLevelZero(lowest: seq<TreeNode>) {
    forall k :: 0 <= k < |lowest| ==> lowest[k].level == 0
  }

  /** The leaves matched against themselves pass exactly when each has level 0. */
  lemma SelfMatch(lowest: seq<TreeNode>)
    ensures (forall i :: 0 <= i < |lowest| ==> LeafMatches(lowest, lowest, i)) <==> LeavesAtLevelZero(lowest)
  {
    forall i | 0 <= i < |lowest|
      ensures LeafMatches(lowest, lowest, i) <==> lowest[i].level == 0
    {
    }
  }

  /** What PrintTree returns: null, or the rendering of the validated tree (the text itself is not modelled). */
  datatype PrintedTree = NullText | Rendered(root: TreeNode)

  /**
   * PrintTree, up to rendering: null for a null root; otherwise it validates
   * the tree against its own lowest level nodes, which succeeds exactly when
   * the tree is linked and every leaf has level 0.
   */
  method PrintTree(root: Option<TreeNode>) returns (r: Result<PrintedTree, Error>)
    ensures root.None? ==> r == Ok(NullText)
    ensures root.Some? ==> (r.Ok? <==> Linked(root.value) && LeavesAtLevelZero(GetLowestLevelNodes(root.value)))
    ensures root.Some? && r.Ok? ==> r.value == Rendered(root.value)
    ensures root.Some? && !Linked(root.value) ==> r == Err(ValidateChildNodes(root.value).error)
  {
    if root.None? {
      return Ok(NullText);
    }
    var tree := root.value;
    var lowest := GetLowestLevelNodes(tree);
    var validated := ValidateTree(tree, lowest);
    if Linked(tree) {
      assert ValidateChildNodes(tree) == Ok(lowest);
      SelfMatch(lowest);
    }
    if validated.Err? {
      return Err(validated.error);
    }
    r := Ok(Rendered(tree));
  }

  /** A node built from a document hash or from metadata is a tree on its own that PrintTree accepts. */
  lemma NewLeafPrints(id: nat, documentHash: Option<DataHash>, metaData: Option<MetaData>)
    requires documentHash.Some? || metaData.Some?
    ensures var r := if documentHash.Some? then NewDocumentNode(id, documentHash, metaData) else NewMetaDataNode(id, metaData);
            && r.Ok? && Linked(r.value) && GetLowestLevelNodes(r.value) == [r.value] && r.value.level == 0
            && ValidateChildNodes(r.value) == Ok([r.value])
  {
  }

  // ------------------------------------------------------ the printed levels

  /** node.Level - 1 on a uint: it wraps to the largest uint below zero. */
  function LevelBelow(level: uint32): (r: uint32)
    ensures level > 0 ==> r == level - 1
    ensures level == 0 ==> r == 0xFFFF_FFFF
  {
    (level + 0xFFFF_FFFF) % 0x1_0000_0000
  }

  /** The node `new TreeNode(level) { Left = child }`, or Right, that stands for a child more than one level down. */
  function Filler(id: nat, level: uint32, child: TreeNode, isLeft: bool): TreeNode {
    TreeNode(id, level, None, None, None, None, if isLeft then Some(child) else None, if isLeft then None else Some(child), false)
  }

  /**
   * What GetChildNodes writes for one side of a non-null node: the child, or
   * a filler one level below the node holding the child on the same side
   * when the child is further down; for a missing child a null, except for
   * the last node, which gets nothing. The filler's identity is id.
   */
  function ChildSlot(node: TreeNode, child: Option<TreeNode>, isLeft: bool, id: nat, last: bool): seq<Option<TreeNode>> {
    if child.Some? then
      [Some(if LevelBelow(node.level) > child.value.level then Filler(id, LevelBelow(node.level), child.value, isLeft)
            else child.value)]
    else if last then []
    else [None]
  }

  /**
   * What GetChildNodes writes for nodes[index]: two nulls for a null node,
   * and otherwise its left slot and its right slot. Fillers made for position
   * index get the identities firstId + 2 * index (left) and firstId + 2 * index + 1
   * (right): new objects, distinct from each other and, for a large enough
   * firstId, from every node of the tree.
   */
  function ChildNodesAt(nodes: seq<Option<TreeNode>>, index: nat, firstId: nat): seq<Option<TreeNode>>
    requires index < |nodes|
  {
    if nodes[index].None? then [None, None]
    else
      var node := nodes[index].value;
      var last := index + 1 >= |nodes|;
      ChildSlot(node, node.left, true, firstId + 2 * index, last) + ChildSlot(node, node.right, false, firstId + 2 * index + 1, last)
  }

  /** GetChildNodes after its loop has seen the first n nodes. */
  function ChildNodesUpTo(nodes: seq<Option<TreeNode>>, n: nat, firstId: nat): seq<Option<TreeNode>>
    requires n <= |nodes|
  {
    if n == 0 then [] else ChildNodesUpTo(nodes, n - 1, firstId) + ChildNodesAt(nodes, n - 1, firstId)
  }

  /** The body of GetChildNodes' loop: appends what the source writes for nodes[index]. */
  method AppendChildNodes(result: seq<Option<TreeNode>>, nodes: seq<Option<TreeNode>>, index: nat, firstId: nat)
    returns (after: seq<Option<TreeNode>>)
    requires index < |nodes|
    ensures after == result + ChildNodesAt(nodes, index, firstId)
  {
    after := result;
    var node := nodes[index];
    if node.None? {
      after := after + [None];
      after := after + [None];
      return;
    }
    var n := node.value;
    ghost var last := index + 1 >= |nodes|;
    if n.left.Some? {
      if LevelBelow(n.level) > n.left.value.level {
        var newNode := Filler(firstId + 2 * index, LevelBelow(n.level), n.left.value, true);
        after := after + [Some(newNode)];
      } else {
        after := after + [n.left];
      }
    } else if index + 1 < |nodes| {
      after := after + [None];
    }
    assert after == result + ChildSlot(n, n.left, true, firstId + 2 * index, last);
    ghost var middle := after;
    if n.right.Some? {
      if LevelBelow(n.level) > n.right.value.level {
        var newNode := Filler(firstId + 2 * index + 1, LevelBelow(n.level), n.right.value, false);
        after := after + [Some(newNode)];
      } else {
        after := after + [n.right];
      }
    } else if index + 1 < |nodes| {
      after := after + [None];
    }
    assert after == middle + ChildSlot(n, n.right, false, firstId + 2 * index + 1, last);
  }

  /** GetChildNodes: the loop appending each node's children to result. */
  method GetChildNodes(nodes: seq<Option<TreeNode>>, firstId: nat) returns (result: seq<Option<TreeNode>>)
    ensures result == ChildNodesUpTo(nodes, |nodes|, firstId)
  {
    result := [];
    for index := 0 to |nodes|
      invariant result == ChildNodesUpTo(nodes, index, firstId)
    {
      result := AppendChildNodes(result, nodes, index, firstId);
    }
  }

  /**
   * The slot the documented behaviour gives one side of a node: null for a
   * null node or a missing child, and otherwise the child or its filler.
   */
  function Slot(node: Option<TreeNode>, isLeft: bool, id: nat): (r: Option<TreeNode>)
    ensures r.Some? <==> node.Some? && (if isLeft then node.value.left else node.value.right).Some?
    ensures r.Some? ==>
              var child := (if isLeft then node.value.left else node.value.right).value;
              || (r.value == child && LevelBelow(node.value.level) <= child.level)
              || (&& LevelBelow(node.value.level) > child.level && r.value.level == LevelBelow(node.value.level)
                  && r.value.id == id && !r.value.isLeftNode
                  && r.value.left == (if isLeft then Some(child) else None)
                  && r.value.right == (if isLeft then None else Some(child)))
  {
    if node.None? then None
    else
      var child := if isLeft then node.value.left else node.value.right;
      if child.None? then None
      else ChildSlot(node.value, child, isLeft, id, false)[0]
  }

  /** The documented result: two elements per given node, its left slot and its right slot. */
  function PaddedChildNodes(nodes: seq<Option<TreeNode>>, firstId: nat): (r: seq<Option<TreeNode>>)
    ensures |r| == 2 * |nodes|
    ensures forall k :: 0 <= k < |nodes| ==> r[2 * k] == Slot(nodes[k], true, firstId + 2 * k)
    ensures forall k :: 0 <= k < |nodes| ==> r[2 * k + 1] == Slot(nodes[k], false, firstId + 2 * k + 1)
  {
    if |nodes| == 0 then []
    else
      var before := PaddedChildNodes(nodes[..|nodes| - 1], firstId);
      var k := |nodes| - 1;
      var r := before + [Slot(nodes[k], true, firstId + 2 * k), Slot(nodes[k], false, firstId + 2 * k + 1)];
      assert forall j :: 0 <= j < k ==> nodes[..k][j] == nodes[j];
      r
  }

  /** How many slots GetChildNodes leaves out: the missing children of the last node, when it is not null. */
  function MissingSlots(nodes: seq<Option<TreeNode>>): nat {
    if |nodes| == 0 || nodes[|nodes| - 1].None? then 0
    else
      var last := nodes[|nodes| - 1].value;
      (if last.left.None? then 1 else 0) + (if last.right.None? then 1 else 0)
  }

  /** Up to the last node, GetChildNodes writes the documented two slots per node. */
  lemma {:induction false} ChildNodesUpToPadded(nodes: seq<Option<TreeNode>>, n: nat, firstId: nat)
    requires n < |nodes|
    ensures ChildNodesUpTo(nodes, n, firstId) == PaddedChildNodes(nodes[..n], firstId)
  {
    if n > 0 {
      ChildNodesUpToPadded(nodes, n - 1, firstId);
      var k := n - 1;
      assert nodes[..n][..k] == nodes[..k];
      assert nodes[..n][k] == nodes[k];
      assert ChildNodesAt(nodes, k, firstId) == [Slot(nodes[k], true, firstId + 2 * k), Slot(nodes[k], false, firstId + 2 * k + 1)];
    }
  }

  /** GetChildNodes writes two elements per node but the last, and for the last the missing children are left out. */
  lemma ChildNodesLength(nodes: seq<Option<TreeNode>>, firstId: nat)
    ensures |ChildNodesUpTo(nodes, |nodes|, firstId)| == 2 * |nodes| - MissingSlots(nodes)
  {
    if |nodes| > 0 {
      var k := |nodes| - 1;
      ChildNodesUpToPadded(nodes, k, firstId);
      assert |ChildNodesUpTo(nodes, k, firstId)| == 2 * k;
      if nodes[k].Some? {
        var node := nodes[k].value;
        assert |ChildSlot(node, node.left, true, firstId + 2 * k, true)| == if node.left.None? then 0 else 1;
        assert |ChildSlot(node, node.right, false, firstId + 2 * k + 1, true)| == if node.right.None? then 0 else 1;
      }
    }
  }

  /** Up to the last node, GetChildNodes writes what the documentation says. */
  lemma ChildNodesPrefix(nodes: seq<Option<TreeNode>>, firstId: nat)
    requires |nodes| > 0
    ensures |ChildNodesUpTo(nodes, |nodes|, firstId)| >= 2 * |nodes| - 2
    ensures ChildNodesUpTo(nodes, |nodes|, firstId)[..2 * |nodes| - 2] == PaddedChildNodes(nodes, firstId)[..2 * |nodes| - 2]
  {
    var k := |nodes| - 1;
    ChildNodesUpToPadded(nodes, k, firstId);
    var before := ChildNodesUpTo(nodes, k, firstId);
    var padded := PaddedChildNodes(nodes, firstId);
    assert padded[..2 * k] == before by {
      assert forall j :: 0 <= j < k ==> nodes[..k][j] == nodes[j];
    }
    assert ChildNodesUpTo(nodes, |nodes|, firstId)[..2 * k] == before;
  }

  /** When the last node is null or has both children, GetChildNodes writes the documented result. */
  lemma ChildNodesComplete(nodes: seq<Option<TreeNode>>, firstId: nat)
    requires |nodes| > 0 && MissingSlots(nodes) == 0
    ensures ChildNodesUpTo(nodes, |nodes|, firstId) == PaddedChildNodes(nodes, firstId)
  {
    var k := |nodes| - 1;
    ChildNodesUpToPadded(nodes, k, firstId);
    var slots := [Slot(nodes[k], true, firstId + 2 * k), Slot(nodes[k], false, firstId + 2 * k + 1)];
    assert PaddedChildNodes(nodes, firstId) == PaddedChildNodes(nodes[..k], firstId) + slots;
    assert ChildNodesAt(nodes, k, firstId) == slots;
  }

  /**
   * GetChildNodes returns the documented two slots per node exactly when the
   * last node is null or has both children.
   */
  lemma ChildNodesAsWritten(nodes: seq<Option<TreeNode>>, firstId: nat)
    ensures ChildNodesUpTo(nodes, |nodes|, firstId) == PaddedChildNodes(nodes, firstId) <==> MissingSlots(nodes) == 0
  {
    ChildNodesLength(nodes, firstId);
    if |nodes| > 0 && MissingSlots(nodes) == 0 {
      ChildNodesComplete(nodes, firstId);
    }
  }

  /** A single leaf is the input that shows it: GetChildNodes returns no element for it, not two. */
  lemma ChildNodesOfLeaf(leaf: TreeNode, firstId: nat)
    requires Childless(leaf)
    ensures ChildNodesUpTo([Some(leaf)], 1, firstId) == []
    ensures PaddedChildNodes([Some(leaf)], firstId) == [None, None]
  {
    assert PaddedChildNodes([Some(leaf)], firstId)[0] == None;
    assert PaddedChildNodes([Some(leaf)], firstId)[1] == None;
  }
}
