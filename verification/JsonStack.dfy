/**
 The explicit stack of `jsonParse` (its arrays `tails`, `tags` and `keys` and the index
 `pos`) over the heap of nodes, tied to the stack of frames of the step function.
 */
module JsonStack {
  import opened Options
  import opened JsonMachine
  import opened JsonHeap
  import opened JsonPlaced
  import JsonAllocator

  const NO_KEY: int := -1

  ghost predicate KeyReads(key: int, f: Frame, mem: string, limit: nat) {
    if f.InObject? && f.key.Some? then 0 <= key && ReadsString(mem, key, f.key.value, limit)
    else key == NO_KEY
  }

  /** One open container: its ring holds the frame's content in order, and its key slot the pending key. */
  ghost predicate LevelReads(sh: Shape, tail: JsonNode?, isObject: bool, key: int, f: Frame, mem: string, limit: nat)
    reads Foot(sh)
  {
    && sh.List? && Separate(sh) && Ring(tail, sh) && ItemsRead(sh, f, mem, limit)
    && isObject == f.InObject?
    && KeyReads(key, f, mem, limit)
  }

  lemma LevelReadsFrame(sh: Shape, tail: JsonNode?, isObject: bool, key: int, f: Frame,
                        mem: string, mem': string, limit: nat, limit': nat)
    requires LevelReads(sh, tail, isObject, key, f, mem, limit)
    requires limit <= limit' && limit <= |mem| <= |mem'| && mem[..limit] == mem'[..limit]
    ensures LevelReads(sh, tail, isObject, key, f, mem', limit')
  {
    ItemsReadFrame(sh, f, mem, mem', limit, limit');
    assert forall k :: 0 <= k < limit ==> mem[k] == mem[..limit][k] == mem'[k];
  }

  lemma StringOrNot(o: JsonValue, v: Value, sh: Shape, mem: string, limit: nat)
    requires Reads(o, v, sh, mem, limit)
    ensures v.String? <==> o.StringValue?
    ensures v.String? ==> ReadsString(mem, o.at, v.str, limit)
  {
  }

  ghost predicate Disjoint(levels: seq<Shape>) {
    forall i, j :: 0 <= i < j < |levels| ==> Foot(levels[i]) !! Foot(levels[j])
  }

  /** The innermost level may grow by nodes that no other level has. */
  lemma DisjointGrows(levels: seq<Shape>, sh: Shape)
    requires Disjoint(levels) && levels != []
    requires forall k :: 0 <= k < |levels| - 1 ==> Foot(levels[k]) !! Foot(sh)
    ensures Disjoint(levels[..|levels| - 1] + [sh])
  {
  }

  class ParseStack {
    const tails: array<JsonNode?>
    const tags: array<bool>
    const keys: array<int>
    var pos: int
    ghost var levels: seq<Shape>
    ghost var owned: set<JsonNode>

    constructor ()
      ensures pos == -1 && owned == {} && Valid([], [], 0)
      ensures fresh(tails) && fresh(tags) && fresh(keys)
    {
      tails := new JsonNode?[STACK_SIZE](_ => null);
      tags := new bool[STACK_SIZE];
      keys := new int[STACK_SIZE];
      pos, levels, owned := -1, [], {};
    }

    ghost predicate Valid(frames: seq<Frame>, mem: string, limit: nat)
      reads this, tails, tags, keys, owned
    {
      && tails.Length == tags.Length == keys.Length == STACK_SIZE
      && pos + 1 == |frames| == |levels| <= STACK_SIZE
      && Disjoint(levels)
      && LevelsRead(frames, mem, limit)
    }

    /** The first `|frames|` levels hold these frames. */
    ghost predicate LevelsRead(frames: seq<Frame>, mem: string, limit: nat)
      requires |frames| <= |levels| <= STACK_SIZE == tails.Length == tags.Length == keys.Length
      reads this, tails, tags, keys, owned
    {
      forall k :: 0 <= k < |frames| ==>
        && Foot(levels[k]) <= owned
        && LevelReads(levels[k], tails[k], tags[k], keys[k], frames[k], mem, limit)
    }

    /** Nothing in the open containers lies below a value that is about to join them. */
    ghost predicate Apart(sh: Shape)
      reads this
    {
      forall k :: 0 <= k < |levels| ==> Foot(levels[k]) !! Foot(sh)
    }

    lemma Frame(frames: seq<Frame>, mem: string, mem': string, limit: nat, limit': nat)
      requires Valid(frames, mem, limit)
      requires limit <= limit' && limit <= |mem| <= |mem'| && mem[..limit] == mem'[..limit]
      ensures Valid(frames, mem', limit')
    {
      forall k | 0 <= k < |levels|
        ensures LevelReads(levels[k], tails[k], tags[k], keys[k], frames[k], mem', limit')
      {
        LevelReadsFrame(levels[k], tails[k], tags[k], keys[k], frames[k], mem, mem', limit, limit');
      }
    }

    /** An opening bracket: a new, empty ring. */
    method Push(isObject: bool, ghost frames: seq<Frame>, ghost mem: string, ghost limit: nat)
      requires Valid(frames, mem, limit) && |frames| < STACK_SIZE
      modifies this, tails, tags, keys
      ensures Valid(frames + [if isObject then InObject([], None) else InArray([])], mem, limit)
      ensures owned == old(owned)
    {
      hide Reads;
      pos := pos + 1;
      tails[pos] := null;
      tags[pos] := isObject;
      keys[pos] := NO_KEY;
      levels := levels + [List([], [], {})];
    }

    /** The innermost key slot takes a string that has just been read. */
    method SetKey(at: nat, ghost key: string, ghost frames: seq<Frame>, ghost mem: string, ghost limit: nat)
      requires Valid(frames, mem, limit) && frames != []
      requires Top(frames).InObject? && Top(frames).key.None? && ReadsString(mem, at, key, limit)
      modifies keys
      ensures Valid(WithTop(frames, InObject(Top(frames).members, Some(key))), mem, limit)
    {
      hide Reads, Ring, Separate;
      keys[pos] := at;
      assert LevelsRead(frames[..pos], mem, limit);
    }

    /** All levels but the innermost hold their frames; the sizes agree. */
    ghost predicate OuterValid(frames: seq<Frame>, mem: string, limit: nat)
      reads this, tails, tags, keys, owned
    {
      && tails.Length == tags.Length == keys.Length == STACK_SIZE
      && pos + 1 == |frames| == |levels| <= STACK_SIZE
      && frames != [] && Disjoint(levels)
      && LevelsRead(frames[..pos], mem, limit)
    }

    /** The innermost level becomes `e`, with `node` as the tail of its ring and no key pending. */
    method ReplaceTop(node: JsonNode, ghost e: Shape, ghost f: Frame, ghost frames: seq<Frame>, ghost mem: string,
                      ghost limit: nat)
      requires OuterValid(frames, mem, limit)
      requires forall k :: 0 <= k < pos ==> Foot(levels[k]) !! Foot(e)
      requires LevelReads(e, node, tags[pos], NO_KEY, f, mem, limit)
      modifies this, tails, keys
      ensures Valid(WithTop(frames, f), mem, limit)
      ensures owned == old(owned) + Foot(e) && pos == old(pos)
    {
      hide Reads, ItemsRead, Ring, Separate;
      DisjointGrows(levels, e);
      tails[pos] := node;
      keys[pos] := NO_KEY;
      owned := owned + Foot(e);
      levels := levels[..pos] + [e];
    }

    lemma StackLevel(frames: seq<Frame>, mem: string, limit: nat)
      requires Valid(frames, mem, limit) && frames != []
      ensures tails.Length == tags.Length == keys.Length == STACK_SIZE && pos + 1 == |frames| <= STACK_SIZE
      ensures tags[pos] == Top(frames).InObject?
    {
      assert LevelReads(levels[pos], tails[pos], tags[pos], keys[pos], Top(frames), mem, limit);
    }

    /** The innermost ring takes a node of the right size for a finished value. */
    method LinkTop(node: JsonNode, o: JsonValue, ghost v: Value, ghost sh: Shape, ghost key: string,
                   ghost frames: seq<Frame>, ghost mem: string, ghost limit: nat)
      requires Valid(frames, mem, limit) && frames != []
      requires Reads(o, v, sh, mem, limit) && Apart(sh) && Foot(sh) <= owned
      requires Top(frames).InObject? ==> Top(frames).key == Some(key)
      requires node !in owned && node.size == NodeSize(Top(frames).InObject?)
      modifies this, tails, keys, owned, node
      ensures Valid(WithTop(frames, WithItem(Top(frames), key, v)), mem, limit)
      ensures pos == old(pos) && owned == old(owned) + {node}
      ensures node.size < NodeSize(true) ==> node.key == old(node.key)
    {
      hide Reads, ItemsRead, Ring, Separate;
      ghost var f, level := Top(frames), levels[pos];
      assert LevelReads(level, tails[pos], tags[pos], keys[pos], f, mem, limit);
      RingTail(tails[pos], level);
      AppendNode(tails[pos], node, o, tags[pos], keys[pos], level, f, key, v, sh, mem, limit);
      assert OuterValid(frames, mem, limit);
      ReplaceTop(node, Extended(level, node, sh), WithItem(f, key, v), frames, mem, limit);
      assert owned == old(owned) + {node};
    }

    /** The innermost ring takes a finished value, under the pending key in an object, unless memory runs out. */
    method AddNode(a: JsonAllocator.Allocator, o: JsonValue, ghost v: Value, ghost sh: Shape, ghost key: string,
                   ghost frames: seq<Frame>, ghost mem: string, ghost limit: nat,
                   ghost before: multiset<JsonAllocator.Block>)
      returns (ok: bool)
      requires Valid(frames, mem, limit) && frames != []
      requires Reads(o, v, sh, mem, limit) && Apart(sh) && Foot(sh) <= owned
      requires Top(frames).InObject? ==> Top(frames).key == Some(key)
      requires Holds(a, owned, before)
      modifies this, tails, keys, owned, a, a.Zones()
      ensures Holds(a, owned, before) && (!ok ==> IsExhausted(a))
      ensures fresh(a.Zones() - old(a.Zones()))
      ensures ok ==> Valid(WithTop(frames, WithItem(Top(frames), key, v)), mem, limit)
      ensures pos == old(pos) && old(owned) <= owned && fresh(owned - old(owned))
    {
      hide Reads, Valid, Holds, IsExhausted, WithItem;
      StackLevel(frames, mem, limit);
      var node := NewNode(a, tags[pos], owned, before);
      ok := node != null;
      if ok {
        LinkTop(node, o, v, sh, key, frames, mem, limit);
      }
    }

    /**
     The end of a round: a finished value joins the innermost container, as its next item,
     as the key of a member to come, or as the value of a pending key.
     */
    method Accept(a: JsonAllocator.Allocator, o: JsonValue, ghost v: Value, ghost sh: Shape, ghost frames: seq<Frame>,
                  ghost mem: string, ghost limit: nat, ghost before: multiset<JsonAllocator.Block>)
      returns (status: Status)
      requires Valid(frames, mem, limit) && frames != []
      requires Reads(o, v, sh, mem, limit) && Apart(sh) && Foot(sh) <= owned
      requires Holds(a, owned, before)
      modifies this, tails, keys, owned, a, a.Zones()
      ensures Holds(a, owned, before) && (status == AllocationFailure ==> IsExhausted(a))
      ensures fresh(a.Zones() - old(a.Zones()))
      ensures status in {Ok, UnquotedKey, AllocationFailure}
      ensures status != AllocationFailure ==> (status == Ok <==> Join(frames, v).Some?)
      ensures status == Ok ==> Valid(Join(frames, v).value, mem, limit)
      ensures pos == old(pos) && old(owned) <= owned && fresh(owned - old(owned))
    {
      hide Reads, Holds, IsExhausted;
      ghost var f := Top(frames);
      assert tags[pos] == f.InObject? && KeyReads(keys[pos], f, mem, limit);
      if tags[pos] && keys[pos] == NO_KEY {
        StringOrNot(o, v, sh, mem, limit);
        if !o.StringValue? {
          return UnquotedKey;
        }
        SetKey(o.at, v.str, frames, mem, limit);
      } else {
        var ok := AddNode(a, o, v, sh, if f.InObject? then f.key.value else "", frames, mem, limit, before);
        if !ok {
          return AllocationFailure;
        }
      }
      status := Ok;
    }

    /** A closing bracket: the innermost ring, if it is of the right kind and no key is pending, becomes a value. */
    method Close(isObject: bool, ghost frames: seq<Frame>, ghost mem: string, ghost limit: nat)
      returns (status: Status, o: JsonValue, ghost sh: Shape)
      requires Valid(frames, mem, limit)
      modifies this, owned
      ensures status == CloseStatus(frames, isObject)
      ensures status == Ok ==>
        && Valid(frames[..|frames| - 1], mem, limit)
        && Reads(o, Finished(Top(frames)), sh, mem, limit) && Apart(sh) && Foot(sh) <= owned
      ensures owned == old(owned)
    {
      hide Reads, ItemsRead, Ring, Separate;
      o, sh := NullValue, Leaf;
      if pos == -1 {
        return StackUnderflow, o, sh;
      }
      ghost var f := Top(frames);
      assert LevelReads(levels[pos], tails[pos], tags[pos], keys[pos], f, mem, limit);
      if tags[pos] != isObject {
        return MismatchBracket, o, sh;
      }
      if keys[pos] != NO_KEY {
        return UnexpectedCharacter, o, sh;
      }
      sh := levels[pos];
      RingTail(tails[pos], sh);
      o := ListToValue(isObject, tails[pos], sh, f, mem, limit);
      assert LevelsRead(frames[..pos], mem, limit);
      levels := levels[..pos];
      pos := pos - 1;
      status := Ok;
    }
  }
}
