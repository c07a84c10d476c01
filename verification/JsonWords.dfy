/**
 The words that stand in the nodes of a parsed graph: each value that is no number is boxed
 with its tag and the address it refers to, and read back from its word unchanged.
 */
module JsonWords {
  import opened Options
  import opened JsonMachine
  import opened JsonBoxing
  import opened JsonAllocator
  import opened JsonHeap
  import opened JsonPlaced

  function TagOf(o: JsonValue): Tag {
    match o
    case NumberValue(_) => NumberTag
    case StringValue(_) => StringTag
    case ArrayValue(_) => ArrayTag
    case ObjectValue(_) => ObjectTag
    case TrueValue => TrueTag
    case FalseValue => FalseTag
    case NullValue => NullTag
  }

  function NodeAddress(n: JsonNode?): nat {
    if n == null then 0 else n.address
  }

  /** The pointer of a value; the text buffer lies at `buf`. */
  function PointerOf(o: JsonValue, buf: nat): nat {
    match o
    case StringValue(at) => buf + at
    case ArrayValue(head) => NodeAddress(head)
    case ObjectValue(head) => NodeAddress(head)
    case _ => 0
  }

  /** The word of a value that is no number. */
  function Word(o: JsonValue, buf: nat): bv64 {
    Box(TagOf(o), Bits(PointerOf(o, buf), POINTER_BITS))
  }

  /** From its word a value is read back as what it is: no double, with its tag and its pointer. */
  ghost predicate Unboxes(o: JsonValue, buf: nat) {
    var word := Word(o, buf);
    && !IsDouble(word) && GetTagCode(word) == Code(TagOf(o))
    && FromBits(GetPayload(word), POINTER_BITS) == PointerOf(o, buf)
  }

  lemma WordUnboxes(o: JsonValue, buf: nat)
    requires !o.NumberValue? && PointerOf(o, buf) < ADDRESS_LIMIT
    ensures Unboxes(o, buf)
  {
    hide Box, Bits, FromBits, IsDouble, GetTagCode, GetPayload, Code;
    AddressRoundTrip(PointerOf(o, buf));
    BoxUnboxes(TagOf(o), Bits(PointerOf(o, buf), POINTER_BITS));
  }

  // ---------- the words of a graph ----------

  /** The blocks of the nodes lie where a pointer can be boxed. */
  ghost predicate NodesBelow(nodes: set<JsonNode>) {
    forall n :: n in nodes ==> 0 < n.address && n.address + n.size <= ADDRESS_LIMIT
  }

  /** Every value of the graph, down to its leaves, is a number or comes back from its word. */
  ghost predicate GraphUnboxes(o: JsonValue, sh: Shape, buf: nat)
    reads Foot(sh)
    decreases sh
  {
    && (o.NumberValue? || Unboxes(o, buf))
    && (sh.List? ==>
          && Separate(sh)
          && forall i :: 0 <= i < |sh.nodes| ==> GraphUnboxes(sh.nodes[i].value, sh.kids[i], buf))
  }

  /** The value refers to nothing, to a string of the buffer, or to a node of its list. */
  lemma PointerFits(o: JsonValue, v: Value, sh: Shape, mem: string, limit: nat, buf: nat)
    requires Reads(o, v, sh, mem, limit) && NodesBelow(Foot(sh)) && buf + limit <= ADDRESS_LIMIT
    ensures PointerOf(o, buf) < ADDRESS_LIMIT
    ensures (o.ArrayValue? || o.ObjectValue?) && o.head != null ==> o.head in Foot(sh) && o.head.size > 0
  {
    hide TwoTo, JsonHeap.ReadsString;
    LimitIsPositive();
    StringFits(o, v, sh, mem, limit);
  }

  lemma LimitIsPositive()
    ensures ADDRESS_LIMIT > 0
  {
  }

  lemma StringFits(o: JsonValue, v: Value, sh: Shape, mem: string, limit: nat)
    requires Reads(o, v, sh, mem, limit)
    ensures o.StringValue? ==> o.at < limit
  {
  }

  lemma {:induction false} ReadUnboxes(o: JsonValue, v: Value, sh: Shape, mem: string, limit: nat, buf: nat)
    requires Reads(o, v, sh, mem, limit) && NodesBelow(Foot(sh)) && buf + limit <= ADDRESS_LIMIT
    ensures GraphUnboxes(o, sh, buf)
    decreases sh
  {
    hide Unboxes, TwoTo, JsonHeap.ReadsString;
    PointerFits(o, v, sh, mem, limit, buf);
    if !o.NumberValue? { WordUnboxes(o, buf); }
    if sh.List? {
      var f := if v.Array? then InArray(v.items) else InObject(v.members, None);
      forall i | 0 <= i < |sh.nodes| ensures GraphUnboxes(sh.nodes[i].value, sh.kids[i], buf) {
        ReadUnboxes(sh.nodes[i].value, ItemAt(f, i), sh.kids[i], mem, limit, buf);
      }
    }
  }

  /** A word says which value it is: two values over nodes in place have the same word only if they are the same. */
  lemma WordsDetermine(o: JsonValue, p: JsonValue, buf: nat, blocks: multiset<Block>, nodes: set<JsonNode>,
                       before: multiset<Block>)
    requires InPlace(blocks, nodes, before) && NodesBelow(nodes)
    requires !o.NumberValue? && PointerOf(o, buf) < ADDRESS_LIMIT && RefersTo(o, nodes)
    requires !p.NumberValue? && PointerOf(p, buf) < ADDRESS_LIMIT && RefersTo(p, nodes)
    ensures Word(o, buf) == Word(p, buf) ==> o == p
  {
    hide Box, Bits, FromBits, TwoTo;
    var a, b := PointerOf(o, buf), PointerOf(p, buf);
    AddressRoundTrip(a);
    AddressRoundTrip(b);
    if Word(o, buf) == Word(p, buf) {
      BoxIsInjective(TagOf(o), Bits(a, POINTER_BITS), TagOf(p), Bits(b, POINTER_BITS));
      if o.ArrayValue? || o.ObjectValue? { AddressesDiffer(o.head, p.head, blocks, nodes, before); }
    }
  }

  ghost predicate RefersTo(o: JsonValue, nodes: set<JsonNode>) {
    (o.ArrayValue? || o.ObjectValue?) && o.head != null ==> o.head in nodes && o.head.size > 0
  }

  lemma AddressesDiffer(m: JsonNode?, n: JsonNode?, blocks: multiset<Block>, nodes: set<JsonNode>,
                        before: multiset<Block>)
    requires InPlace(blocks, nodes, before) && NodesBelow(nodes)
    requires (m != null ==> m in nodes && m.size > 0) && (n != null ==> n in nodes && n.size > 0)
    ensures NodeAddress(m) == NodeAddress(n) ==> m == n
  {
  }

  // ---------- the words of a parsed document ----------

  /** All zones lie below the addresses that can be boxed. */
  ghost predicate ZonesBelow(zones: seq<Zone>) {
    forall i :: 0 <= i < |zones| ==> zones[i].address + zones[i].capacity <= ADDRESS_LIMIT
  }

  lemma PlacedBelow(a: Allocator, nodes: set<JsonNode>, before: multiset<Block>)
    requires Holds(a, nodes, before) && ZonesBelow(a.Images())
    ensures NodesBelow(nodes)
  {
    hide AllBlocks, TwoTo;
    var zones := a.Images();
    forall n | n in nodes ensures 0 < n.address && n.address + n.size <= ADDRESS_LIMIT {
      var i, m := FindBlock(zones, BlockOf(n));
      TiledBounds(zones[i].address + HEADER, zones[i].blocks, zones[i].address + zones[i].used);
    }
  }

  /**
   What `JsonParse` leaves behind when it succeeds, with buffer and zones where pointers can
   be boxed, as the source's assertion demands: every value in the graph comes back from its
   word, tag and pointer.
   */
  lemma ParsedUnboxes(a: Allocator, o: JsonValue, v: Value, sh: Shape, mem: string, buf: nat, before: multiset<Block>)
    requires Reads(o, v, sh, mem, |mem|) && Holds(a, Foot(sh), before)
    requires ZonesBelow(a.Images()) && buf + |mem| <= ADDRESS_LIMIT
    ensures GraphUnboxes(o, sh, buf)
  {
    hide Reads, Holds, GraphUnboxes, TwoTo;
    PlacedBelow(a, Foot(sh), before);
    ReadUnboxes(o, v, sh, mem, |mem|, buf);
  }
}
