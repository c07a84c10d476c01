/**
 The nodes of the parser in the zones of its allocator: each node lies in a block of its
 own, apart from all other nodes and from whatever the allocator had handed out before.
 */
module JsonPlaced {
  import opened Options
  import opened JsonAllocator
  import opened JsonHeap

  function BlockOf(n: JsonNode): Block {
    Block(n.address, n.size)
  }

  /** Among the blocks handed out, those of the nodes are apart from one another and from the ones before. */
  ghost predicate InPlace(blocks: multiset<Block>, nodes: set<JsonNode>, before: multiset<Block>) {
    && before <= blocks
    && (forall n :: n in nodes ==> BlockOf(n) in blocks)
    && (forall n, m :: n in nodes && m in nodes && n != m ==> Apart(BlockOf(n), BlockOf(m)))
    && (forall n, c :: n in nodes && c in before ==> Apart(BlockOf(n), c))
  }

  /** The allocator is in order, and the nodes lie in its zones. */
  ghost predicate Holds(a: Allocator, nodes: set<JsonNode>, before: multiset<Block>)
    reads a`head, a`nodes, a`supply, a.Zones()
  {
    && a.Valid() && ZonesOk(a.Images()) && HeadOk(a.Images()) && SupplyOk(a.Images(), a.supply)
    && InPlace(AllBlocks(a.Images()), nodes, before)
  }

  lemma FewerNodes(blocks: multiset<Block>, nodes: set<JsonNode>, fewer: set<JsonNode>, before: multiset<Block>)
    requires InPlace(blocks, nodes, before) && fewer <= nodes
    ensures InPlace(blocks, fewer, before)
  {
  }

  /** A node in the block a call returns is apart from the others. */
  lemma PlacedNode(zones: seq<Zone>, size: nat, at: nat, nodes: set<JsonNode>, node: JsonNode, before: multiset<Block>)
    requires ZonesOk(zones) && HeadOk(zones) && (Fits(zones, size) || Fresh(zones, size, at))
    requires InPlace(AllBlocks(zones), nodes, before) && node !in nodes && BlockOf(node) == Returned(zones, size, at)
    ensures InPlace(AllBlocks(Allocated(zones, size, at)), nodes + {node}, before)
  {
    hide ZonesOk, HeadOk, Fits, Fresh, Allocated, Returned, AllBlocks;
    AllocateAddsOne(zones, size, at);
    forall c | c in AllBlocks(zones) ensures Apart(BlockOf(node), c) { ReturnedIsApart(zones, size, at, c); }
  }

  lemma NodeBlock(zones: seq<Zone>, isObject: bool, at: nat)
    ensures var b := Returned(zones, NodeSize(isObject), at); b == Block(b.at, NodeSize(isObject))
    ensures !IsOversized(NodeSize(isObject))
    ensures NodeSize(isObject) == if isObject then 24 else 16
  {
  }

  /** `malloc` fails, and the zones have no room for another member. */
  ghost predicate IsExhausted(a: Allocator)
    reads a`nodes, a`supply, a.Zones()
  {
    a.supply == [] && !Fits(a.Images(), NodeSize(true))
  }

  lemma ItemsNeedLess(zones: seq<Zone>, isObject: bool)
    requires !Fits(zones, NodeSize(isObject))
    ensures !Fits(zones, NodeSize(true))
  {
  }

  /** A node for a member or an item in a block of its size, or null when `malloc` fails. */
  method NewNode(a: Allocator, isObject: bool, ghost nodes: set<JsonNode>, ghost before: multiset<Block>)
    returns (node: JsonNode?)
    requires Holds(a, nodes, before)
    modifies a, a.Zones()
    ensures fresh(a.Zones() - old(a.Zones()))
    ensures node == null ==> Holds(a, nodes, before) && IsExhausted(a)
    ensures node != null ==> fresh(node) && node.size == NodeSize(isObject) && Holds(a, nodes + {node}, before)
    ensures node != null ==> node.size == if isObject then 24 else 16
  {
    hide ZonesOk, HeadOk, SupplyOk, InPlace, Fits, Fresh, Allocated, Returned, AllBlocks, NodeSize;
    ghost var zones, supply := a.Images(), a.supply;
    ghost var at := if Fits(zones, NodeSize(isObject)) || supply == [] then 0 else supply[0];
    NodeBlock(zones, isObject, at);
    SupplyKeeps(zones, NodeSize(isObject), supply);
    var p := a.Allocate(NodeSize(isObject));
    if p == None {
      ItemsNeedLess(zones, isObject);
      return null;
    }
    node := new JsonNode(p.value, NodeSize(isObject));
    PlacedNode(zones, NodeSize(isObject), at, nodes, node, before);
  }
}
