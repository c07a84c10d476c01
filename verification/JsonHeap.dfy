/**
 The node graph of tools/gason.h in the heap, what it means for a graph to hold a value
 tree, and the two list operations: `insertAfter` on a ring and `listToValue`, which cuts
 a ring open.
 */
module JsonHeap {
  import opened Options
  import opened Texts
  import opened JsonMachine
  import JsonString

  class JsonNode {
    var value: JsonValue
    var next: JsonNode?
    var key: nat
    /** Where the node lies in memory, and how much room it has there: `key` is only there in the node of a member. */
    const address: nat
    const size: nat

    /** A block taken for a node; nothing is stored in it yet. */
    constructor (address: nat, size: nat)
      ensures this.address == address && this.size == size
    {
      this.address, this.size := address, size;
    }
  }

  /** `sizeof(JsonNode)` for a member; the node of an item has no room for a key. */
  function NodeSize(isObject: bool): nat {
    if isObject then 24 else 16
  }

  /** An unboxed `JsonValue`; strings and keys are indices into the text buffer. */
  datatype JsonValue =
    | NumberValue(num: real)
    | StringValue(at: nat)
    | ArrayValue(head: JsonNode?)
    | ObjectValue(head: JsonNode?)
    | TrueValue
    | FalseValue
    | NullValue

  /** Where a value's nodes are: those of its own list, the shapes below them, and all of them together. */
  datatype Shape = Leaf | List(nodes: seq<JsonNode>, kids: seq<Shape>, all: set<JsonNode>)

  ghost function Foot(sh: Shape): set<JsonNode> {
    if sh.Leaf? then {} else sh.all
  }

  /** The C string at index `at` is `s`, and it ends in front of index `limit`. */
  ghost predicate ReadsString(mem: string, at: nat, s: string, limit: nat) {
    JsonString.StoredAt(mem, at, s) && NulFree(s) && at + |s| < limit
  }

  /** A list without sharing: its nodes differ, and nothing below one lies in the list or below another. */
  ghost predicate Separate(sh: Shape)
    requires sh.List?
  {
    && |sh.nodes| == |sh.kids|
    && (forall i :: 0 <= i < |sh.nodes| ==> sh.nodes[i] in sh.all)
    && (forall i :: 0 <= i < |sh.kids| ==> Foot(sh.kids[i]) <= sh.all)
    && (forall i, j :: 0 <= i < j < |sh.nodes| ==> sh.nodes[i] != sh.nodes[j])
    && (forall i, j :: 0 <= i < |sh.nodes| && 0 <= j < |sh.kids| ==> sh.nodes[i] !in Foot(sh.kids[j]))
    && (forall i, j :: 0 <= i < j < |sh.kids| ==> Foot(sh.kids[i]) !! Foot(sh.kids[j]))
  }

  /** The nodes of a closed list follow each other from `head` to the null at its end. */
  ghost predicate Chain(head: JsonNode?, sh: Shape)
    requires sh.List? && Separate(sh)
    reads sh.all
  {
    if sh.nodes == [] then head == null
    else
      && head == sh.nodes[0]
      && (forall i :: 0 <= i < |sh.nodes| - 1 ==> sh.nodes[i].next == sh.nodes[i + 1])
      && sh.nodes[|sh.nodes| - 1].next == null
  }

  /** The nodes of an open list form a ring that `tail` closes; `tail` is the last of them. */
  ghost predicate Ring(tail: JsonNode?, sh: Shape)
    requires sh.List? && Separate(sh)
    reads sh.all
  {
    if sh.nodes == [] then tail == null
    else
      && tail == sh.nodes[|sh.nodes| - 1]
      && (forall i :: 0 <= i < |sh.nodes| - 1 ==> sh.nodes[i].next == sh.nodes[i + 1])
      && sh.nodes[|sh.nodes| - 1].next == sh.nodes[0]
  }

  /** The graph below `v` is laid out as `sh` says and holds the tree `t`. */
  ghost predicate Reads(v: JsonValue, t: Value, sh: Shape, mem: string, limit: nat)
    reads Foot(sh)
    decreases sh
  {
    match t
    case Number(r) => v == NumberValue(r) && sh.Leaf?
    case String(s) => v.StringValue? && sh.Leaf? && ReadsString(mem, v.at, s, limit)
    case Array(items) =>
      v.ArrayValue? && sh.List? && Separate(sh) && Chain(v.head, sh) && ItemsRead(sh, InArray(items), mem, limit)
    case Object(members) =>
      v.ObjectValue? && sh.List? && Separate(sh) && Chain(v.head, sh)
        && ItemsRead(sh, InObject(members, None), mem, limit)
    case True => v == TrueValue && sh.Leaf?
    case False => v == FalseValue && sh.Leaf?
    case Null => v == NullValue && sh.Leaf?
  }

  function Width(f: Frame): nat {
    if f.InArray? then |f.items| else |f.members|
  }

  function ItemAt(f: Frame, i: nat): Value
    requires i < Width(f)
  {
    if f.InArray? then f.items[i] else f.members[i].value
  }

  /** Node by node, a list holds the items or members collected in a container. */
  ghost predicate ItemsRead(sh: Shape, f: Frame, mem: string, limit: nat)
    requires sh.List? && Separate(sh)
    reads sh.all
    decreases sh, 0
  {
    && |sh.nodes| == Width(f)
    && (forall i :: 0 <= i < |sh.nodes| ==> sh.nodes[i].size == NodeSize(f.InObject?))
    && (forall i :: 0 <= i < |sh.nodes| ==> Reads(sh.nodes[i].value, ItemAt(f, i), sh.kids[i], mem, limit))
    && (f.InObject? ==>
          forall i :: 0 <= i < |sh.nodes| ==> ReadsString(mem, sh.nodes[i].key, f.members[i].key, limit))
  }

  /** What a graph holds depends only on the buffer in front of `limit`. */
  lemma {:induction false} ReadsFrame(v: JsonValue, t: Value, sh: Shape, mem: string, mem': string, limit: nat,
                                      limit': nat)
    requires Reads(v, t, sh, mem, limit)
    requires limit <= limit' && limit <= |mem| <= |mem'| && mem[..limit] == mem'[..limit]
    ensures Reads(v, t, sh, mem', limit')
    decreases sh
  {
    assert forall k :: 0 <= k < limit ==> mem[k] == mem[..limit][k] == mem'[k];
    if t.Array? {
      ItemsReadFrame(sh, InArray(t.items), mem, mem', limit, limit');
    } else if t.Object? {
      ItemsReadFrame(sh, InObject(t.members, None), mem, mem', limit, limit');
    }
  }

  lemma {:induction false} ItemsReadFrame(sh: Shape, f: Frame, mem: string, mem': string, limit: nat, limit': nat)
    requires sh.List? && Separate(sh) && ItemsRead(sh, f, mem, limit)
    requires limit <= limit' && limit <= |mem| <= |mem'| && mem[..limit] == mem'[..limit]
    ensures ItemsRead(sh, f, mem', limit')
    decreases sh, 0
  {
    assert forall k :: 0 <= k < limit ==> mem[k] == mem[..limit][k] == mem'[k];
    forall i | 0 <= i < |sh.nodes| ensures Reads(sh.nodes[i].value, ItemAt(f, i), sh.kids[i], mem', limit') {
      ReadsFrame(sh.nodes[i].value, ItemAt(f, i), sh.kids[i], mem, mem', limit, limit');
    }
  }

  // ---------- list operations ----------

  ghost function Extended(sh: Shape, node: JsonNode, kid: Shape): Shape
    requires sh.List?
  {
    List(sh.nodes + [node], sh.kids + [kid], sh.all + {node} + Foot(kid))
  }

  lemma RingTail(tail: JsonNode?, sh: Shape)
    requires sh.List? && Separate(sh) && Ring(tail, sh)
    ensures tail != null ==> tail in sh.all
  {
  }

  /** tools/gason.cpp `insertAfter`: the node becomes the ring's tail, and what the ring holds is kept. */
  method InsertAfter(tail: JsonNode?, node: JsonNode, ghost sh: Shape, ghost f: Frame, ghost mem: string,
                     ghost limit: nat)
    returns (newTail: JsonNode)
    requires sh.List? && Separate(sh) && Ring(tail, sh) && ItemsRead(sh, f, mem, limit) && node !in sh.all
    modifies tail, node
    ensures newTail == node
    ensures forall kid: Shape :: Separate(Extended(sh, node, kid)) ==> Ring(newTail, Extended(sh, node, kid))
    ensures ItemsRead(sh, f, mem, limit)
    ensures node.value == old(node.value) && node.key == old(node.key)
    ensures tail != null ==> tail.value == old(tail.value) && tail.key == old(tail.key)
  {
    hide ReadsString;
    if tail == null {
      node.next := node;
      return node;
    }
    node.next := tail.next;
    tail.next := node;
    newTail := node;
  }

  /** tools/gason.cpp `listToValue`: the ring becomes a list that ends in null. */
  method ListToValue(isObject: bool, tail: JsonNode?, ghost sh: Shape, ghost f: Frame, ghost mem: string,
                     ghost limit: nat)
    returns (o: JsonValue)
    requires sh.List? && Separate(sh) && Ring(tail, sh) && ItemsRead(sh, f, mem, limit)
    requires isObject == f.InObject? && (f.InObject? ==> f.key.None?)
    modifies tail
    ensures Reads(o, Finished(f), sh, mem, limit)
  {
    var head: JsonNode? := null;
    if tail != null {
      head := tail.next;
      tail.next := null;
    }
    o := if isObject then ObjectValue(head) else ArrayValue(head);
    assert Chain(head, sh);
    assert ItemsRead(sh, f, mem, limit);
  }

  lemma ExtendedSeparate(sh: Shape, node: JsonNode, kid: Shape)
    requires sh.List? && Separate(sh) && node !in sh.all && node !in Foot(kid) && sh.all !! Foot(kid)
    ensures Separate(Extended(sh, node, kid))
  {
    var e := Extended(sh, node, kid);
    forall i, j | 0 <= i < |e.nodes| && 0 <= j < |e.kids| ensures e.nodes[i] !in Foot(e.kids[j]) {
      if i < |sh.nodes| { assert e.nodes[i] in sh.all; }
    }
    forall i, j | 0 <= i < j < |e.nodes| ensures e.nodes[i] != e.nodes[j] {
      assert e.nodes[i] in sh.all;
    }
    forall i, j | 0 <= i < j < |e.kids| ensures Foot(e.kids[i]) !! Foot(e.kids[j]) {
      assert Foot(e.kids[i]) <= sh.all;
    }
  }

  /** The frame with one more value; `key` is the key it gets in an object. */
  function WithItem(f: Frame, key: string, v: Value): Frame {
    if f.InArray? then InArray(f.items + [v]) else InObject(f.members + [Member(key, v)], None)
  }

  /** One more node behind a list that is already read. */
  lemma ItemsSnoc(sh: Shape, f: Frame, node: JsonNode, kid: Shape, key: string, v: Value, mem: string, limit: nat)
    requires sh.List? && Separate(sh) && ItemsRead(sh, f, mem, limit)
    requires Separate(Extended(sh, node, kid)) && node.size == NodeSize(f.InObject?)
    requires Reads(node.value, v, kid, mem, limit)
    requires f.InObject? ==> ReadsString(mem, node.key, key, limit)
    ensures ItemsRead(Extended(sh, node, kid), WithItem(f, key, v), mem, limit)
  {
    var e := Extended(sh, node, kid);
    forall i | 0 <= i < |e.nodes|
      ensures Reads(e.nodes[i].value, ItemAt(WithItem(f, key, v), i), e.kids[i], mem, limit)
    {
      assert i < |sh.nodes| ==> ItemAt(WithItem(f, key, v), i) == ItemAt(f, i);
    }
  }

  /**
   Puts a node for a finished value at the end of a ring; what the ring and the value hold is
   kept. Only the node of a member gets a key, and no node without room for one.
   */
  method LinkNode(tail: JsonNode?, node: JsonNode, o: JsonValue, isObject: bool, at: int, ghost sh: Shape,
                  ghost f: Frame, ghost v: Value, ghost kid: Shape, ghost mem: string, ghost limit: nat)
    requires sh.List? && Separate(sh) && Ring(tail, sh) && ItemsRead(sh, f, mem, limit)
    requires Reads(o, v, kid, mem, limit) && sh.all !! Foot(kid)
    requires node !in sh.all && node !in Foot(kid)
    requires isObject ==> 0 <= at && node.size == NodeSize(true)
    modifies tail, node
    ensures Separate(Extended(sh, node, kid)) && Ring(node, Extended(sh, node, kid))
    ensures ItemsRead(sh, f, mem, limit)
    ensures node.value == o && node.key == (if isObject then at else old(node.key)) && Reads(o, v, kid, mem, limit)
    ensures tail != null ==> tail.key == old(tail.key)
  {
    hide ItemsRead, Separate, Reads;
    RingTail(tail, sh);
    ExtendedSeparate(sh, node, kid);
    var newTail := InsertAfter(tail, node, sh, f, mem, limit);
    if isObject { node.key := at; }
    node.value := o;
  }

  /**
   The end of a round of `jsonParse`: a new node takes the finished value. No key is stored in
   a node that has no room for it.
   */
  method AppendNode(tail: JsonNode?, node: JsonNode, o: JsonValue, isObject: bool, at: int, ghost sh: Shape,
                    ghost f: Frame, ghost key: string, ghost v: Value, ghost kid: Shape, ghost mem: string,
                    ghost limit: nat)
    requires sh.List? && Separate(sh) && Ring(tail, sh) && ItemsRead(sh, f, mem, limit)
    requires Reads(o, v, kid, mem, limit) && sh.all !! Foot(kid)
    requires isObject == f.InObject? && (isObject ==> 0 <= at && ReadsString(mem, at, key, limit))
    requires node !in sh.all && node !in Foot(kid) && node.size == NodeSize(isObject)
    modifies tail, node
    ensures node.size < NodeSize(true) ==> node.key == old(node.key)
    ensures tail != null ==> tail.key == old(tail.key)
    ensures var e := Extended(sh, node, kid);
      Separate(e) && Ring(node, e) && ItemsRead(e, WithItem(f, key, v), mem, limit)
  {
    LinkNode(tail, node, o, isObject, at, sh, f, v, kid, mem, limit);
    ItemsSnoc(sh, f, node, kid, key, v, mem, limit);
  }
}
