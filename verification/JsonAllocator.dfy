/**
 The zone allocator of tools/gason.h and tools/gason.cpp. Addresses are numbers; what
 `malloc` returns is an input, aligned to 8 and apart from the zones in use.
 */
module JsonAllocator {
  import opened Options

  const ZONE_SIZE: nat := 4096

  /** `sizeof(Zone)`: a pointer and a size. */
  const HEADER: nat := 16

  datatype Block = Block(at: nat, size: nat)

  /** A zone as the source sees it, with the blocks handed out from it. */
  datatype Zone = Zone(address: nat, capacity: nat, used: nat, blocks: seq<Block>)

  function RoundUp(size: nat): (n: nat)
    ensures size <= n < size + 8 && n % 8 == 0
  {
    (size + 7) / 8 * 8
  }

  // ---------- the list of zones, head first ----------

  function Capacity(size: nat): nat {
    if HEADER + RoundUp(size) <= ZONE_SIZE then ZONE_SIZE else HEADER + RoundUp(size)
  }

  predicate IsOversized(size: nat) {
    HEADER + RoundUp(size) > ZONE_SIZE
  }

  predicate Fits(zones: seq<Zone>, size: nat) {
    zones != [] && zones[0].used + RoundUp(size) <= ZONE_SIZE
  }

  function Bump(z: Zone, n: nat): Zone {
    z.(used := z.used + n, blocks := z.blocks + [Block(z.address + z.used, n)])
  }

  function NewZone(at: nat, size: nat): Zone {
    Zone(at, Capacity(size), HEADER + RoundUp(size), [Block(at + HEADER, RoundUp(size))])
  }

  /** The zones after a call; a new zone, if one is needed, is at `at`. */
  function Allocated(zones: seq<Zone>, size: nat, at: nat): seq<Zone> {
    if Fits(zones, size) then [Bump(zones[0], RoundUp(size))] + zones[1..]
    else if HEADER + RoundUp(size) <= ZONE_SIZE || zones == [] then [NewZone(at, size)] + zones
    else [zones[0], NewZone(at, size)] + zones[1..]
  }

  function Returned(zones: seq<Zone>, size: nat, at: nat): Block {
    if Fits(zones, size) then Block(zones[0].address + zones[0].used, RoundUp(size))
    else Block(at + HEADER, RoundUp(size))
  }

  lemma AllocatedCases(zones: seq<Zone>, size: nat, at: nat)
    ensures zones != [] && zones[0].used + RoundUp(size) <= ZONE_SIZE ==>
              && Allocated(zones, size, at) == [Bump(zones[0], RoundUp(size))] + zones[1..]
              && Returned(zones, size, at).at == zones[0].address + zones[0].used
    ensures !(zones != [] && zones[0].used + RoundUp(size) <= ZONE_SIZE) ==>
              && Returned(zones, size, at).at == at + HEADER
              && Allocated(zones, size, at)
                 == if HEADER + RoundUp(size) <= ZONE_SIZE || zones == [] then [NewZone(at, size)] + zones
                    else [zones[0], NewZone(at, size)] + zones[1..]
  {
  }

  /**
   A new zone takes 4096 bytes, or more if the block needs it. It starts with 16 bytes of its own, and
   the block behind them is the smallest that holds the size and ends on a multiple of 8.
   */
  lemma NewZoneIs(size: nat, at: nat)
    ensures var z := NewZone(at, size);
      && z.address == at && z.capacity == (if size <= 4080 then 4096 else z.used)
      && 16 + size <= z.used < 24 + size && z.used % 8 == 0
      && z.blocks == [Block(at + 16, z.used - 16)]
    ensures IsOversized(size) <==> size > 4080
  {
  }

  /** The head is filled up to its 4096th byte, and no further. */
  lemma FitsIff(zones: seq<Zone>, size: nat)
    requires zones != [] && zones[0].used % 8 == 0
    ensures Fits(zones, size) <==> zones[0].used + size <= 4096
  {
  }

  // ---------- what every call keeps ----------

  /** The blocks follow each other without a gap from `from` to `to`. */
  ghost predicate Tiled(from: nat, blocks: seq<Block>, to: nat) {
    if blocks == [] then from == to
    else
      var last := blocks[|blocks| - 1];
      last.at + last.size == to && from <= last.at && Tiled(from, blocks[..|blocks| - 1], last.at)
  }

  ghost predicate ZoneOk(z: Zone) {
    && z.address % 8 == 0 && z.used % 8 == 0
    && HEADER <= z.used <= z.capacity
    && Tiled(z.address + HEADER, z.blocks, z.address + z.used)
  }

  ghost predicate ZonesApart(y: Zone, z: Zone) {
    y.address + y.capacity <= z.address || z.address + z.capacity <= y.address
  }

  ghost predicate ZonesOk(zones: seq<Zone>) {
    && (forall i :: 0 <= i < |zones| ==> ZoneOk(zones[i]))
    && (forall i, j :: 0 <= i < j < |zones| ==> ZonesApart(zones[i], zones[j]))
  }

  /** What `malloc` promises of a new zone. */
  ghost predicate Fresh(zones: seq<Zone>, size: nat, at: nat) {
    at % 8 == 0 && forall i :: 0 <= i < |zones| ==> ZonesApart(NewZone(at, size), zones[i])
  }

  lemma BumpOk(z: Zone, n: nat)
    requires ZoneOk(z) && n % 8 == 0 && z.used + n <= z.capacity
    ensures ZoneOk(Bump(z, n))
  {
    var b := Bump(z, n);
    assert b.blocks[..|b.blocks| - 1] == z.blocks;
    TiledBounds(z.address + HEADER, z.blocks, z.address + z.used);
  }

  lemma NewZoneOk(at: nat, size: nat)
    requires at % 8 == 0
    ensures ZoneOk(NewZone(at, size))
  {
    var z := NewZone(at, size);
    assert z.blocks[..0] == [];
  }

  lemma {:induction false} TiledBounds(from: nat, blocks: seq<Block>, to: nat)
    requires Tiled(from, blocks, to)
    ensures from <= to
    ensures forall i :: 0 <= i < |blocks| ==> from <= blocks[i].at && blocks[i].at + blocks[i].size <= to
    ensures forall i, j :: 0 <= i < j < |blocks| ==> blocks[i].at + blocks[i].size <= blocks[j].at
    decreases |blocks|
  {
    if blocks != [] {
      var n := |blocks| - 1;
      TiledBounds(from, blocks[..n], blocks[n].at);
      assert forall i :: 0 <= i < n ==> blocks[i] == blocks[..n][i];
    }
  }

  /** A call keeps the zones in order. The head may only be a zone that was made to size or an ordinary one. */
  lemma AllocateKeeps(zones: seq<Zone>, size: nat, at: nat)
    requires ZonesOk(zones) && HeadOk(zones) && Fresh(zones, size, at)
    ensures ZonesOk(Allocated(zones, size, at)) && HeadOk(Allocated(zones, size, at))
  {
    CallKeeps(zones, size, at);
  }

  /** An ordinary head has a full zone's capacity; a larger one is full. */
  ghost predicate HeadOk(zones: seq<Zone>) {
    zones != [] ==> zones[0].capacity >= ZONE_SIZE
  }

  // ---------- the blocks ----------

  ghost function AllBlocks(zones: seq<Zone>): multiset<Block> {
    if zones == [] then multiset{} else multiset(zones[0].blocks) + AllBlocks(zones[1..])
  }

  /** A call adds exactly the block it returns; no block moves or disappears. */
  lemma AllocateAddsOne(zones: seq<Zone>, size: nat, at: nat)
    ensures AllBlocks(Allocated(zones, size, at)) == AllBlocks(zones) + multiset{Returned(zones, size, at)}
  {
    var after := Allocated(zones, size, at);
    if Fits(zones, size) {
      assert after[1..] == zones[1..];
    } else if HEADER + RoundUp(size) <= ZONE_SIZE || zones == [] {
      assert after[1..] == zones;
    } else {
      assert after[1..] == [NewZone(at, size)] + zones[1..];
      assert after[1..][1..] == zones[1..];
    }
  }

  /** The block returned is aligned, has the room asked for, and lies in a zone behind its header. */
  lemma ReturnedIsUsable(zones: seq<Zone>, size: nat, at: nat)
    requires ZonesOk(zones) && HeadOk(zones) && at % 8 == 0
    ensures var b := Returned(zones, size, at);
      && b.at % 8 == 0 && size <= b.size
      && exists z :: z in Allocated(zones, size, at) && b in z.blocks
                     && z.address + HEADER <= b.at && b.at + b.size <= z.address + z.capacity
  {
    var after := Allocated(zones, size, at);
    var z := if Fits(zones, size) || HEADER + RoundUp(size) <= ZONE_SIZE || zones == [] then after[0] else after[1];
    assert z in after;
    assert Returned(zones, size, at) == z.blocks[|z.blocks| - 1];
  }

  /** Two blocks never overlap, and no block overlaps a zone's header. */
  lemma BlocksApart(zones: seq<Zone>, i: nat, m: nat, j: nat, n: nat)
    requires ZonesOk(zones) && i < |zones| && j < |zones| && m < |zones[i].blocks| && n < |zones[j].blocks|
    requires (i, m) != (j, n)
    ensures var b, c := zones[i].blocks[m], zones[j].blocks[n];
      b.at + b.size <= c.at || c.at + c.size <= b.at
    ensures var b := zones[i].blocks[m];
      zones[j].address + HEADER <= b.at || b.at + b.size <= zones[j].address
  {
    TiledBounds(zones[i].address + HEADER, zones[i].blocks, zones[i].address + zones[i].used);
    TiledBounds(zones[j].address + HEADER, zones[j].blocks, zones[j].address + zones[j].used);
    if i < j {
      assert ZonesApart(zones[i], zones[j]);
    } else if j < i {
      assert ZonesApart(zones[j], zones[i]);
    }
  }

  predicate Apart(b: Block, c: Block) {
    b.at + b.size <= c.at || c.at + c.size <= b.at
  }

  lemma {:induction false} FindBlock(zones: seq<Zone>, c: Block) returns (i: nat, m: nat)
    requires c in AllBlocks(zones)
    ensures i < |zones| && m < |zones[i].blocks| && zones[i].blocks[m] == c
    decreases |zones|
  {
    if c in zones[0].blocks {
      i := 0;
      m :| 0 <= m < |zones[0].blocks| && zones[0].blocks[m] == c;
    } else {
      i, m := FindBlock(zones[1..], c);
      i := i + 1;
    }
  }

  /** The block a call returns is apart from every block handed out before. */
  lemma ReturnedIsApart(zones: seq<Zone>, size: nat, at: nat, c: Block)
    requires ZonesOk(zones) && HeadOk(zones) && (Fits(zones, size) || Fresh(zones, size, at)) && c in AllBlocks(zones)
    ensures Apart(Returned(zones, size, at), c)
  {
    hide ZonesOk, AllBlocks, Tiled, ZoneOk, HeadOk, Fresh, ZonesApart, RoundUp, Capacity;
    CallKeeps(zones, size, at);
    var after := Allocated(zones, size, at);
    var i, m := FindBlock(zones, c);
    if Fits(zones, size) {
      BlocksApart(after, 0, |zones[0].blocks|, i, m);
    } else if HEADER + RoundUp(size) <= ZONE_SIZE || zones == [] {
      BlocksApart(after, 0, 0, i + 1, m);
    } else {
      BlocksApart(after, 1, 0, if i == 0 then 0 else i + 1, m);
    }
  }

  lemma CallKeeps(zones: seq<Zone>, size: nat, at: nat)
    requires ZonesOk(zones) && HeadOk(zones) && (Fits(zones, size) || Fresh(zones, size, at))
    ensures ZonesOk(Allocated(zones, size, at)) && HeadOk(Allocated(zones, size, at))
  {
    hide ZoneOk, Tiled;
    if Fits(zones, size) {
      BumpOk(zones[0], RoundUp(size));
    } else {
      NewZoneOk(at, size);
    }
  }

  /** An ordinary head stays where it is when a zone made to size is put behind it. */
  lemma OversizedStaysBehind(zones: seq<Zone>, size: nat, at: nat)
    requires zones != [] && HEADER + RoundUp(size) > ZONE_SIZE && !Fits(zones, size)
    ensures Allocated(zones, size, at)[0] == zones[0]
    ensures forall more :: Fits(Allocated(zones, size, at), more) <==> Fits(zones, more)
  {
  }

  // ---------- what malloc will return ----------

  /** A zone of ordinary size at an address `malloc` returns. */
  function Room(at: nat): Zone {
    Zone(at, ZONE_SIZE, ZONE_SIZE, [])
  }

  /** The addresses `malloc` will return one by one, each with room for an ordinary zone, all of them apart. */
  ghost predicate SupplyOk(zones: seq<Zone>, supply: seq<nat>) {
    && (forall k :: 0 <= k < |supply| ==> supply[k] % 8 == 0)
    && (forall k, i :: 0 <= k < |supply| && 0 <= i < |zones| ==> ZonesApart(Room(supply[k]), zones[i]))
    && (forall k, l :: 0 <= k < l < |supply| ==> ZonesApart(Room(supply[k]), Room(supply[l])))
  }

  /** A call for an ordinary block keeps zones and supply in order. */
  lemma SupplyKeeps(zones: seq<Zone>, size: nat, supply: seq<nat>)
    requires ZonesOk(zones) && HeadOk(zones) && SupplyOk(zones, supply) && !IsOversized(size)
    ensures Fits(zones, size) ==>
      forall at :: ZonesOk(Allocated(zones, size, at)) && HeadOk(Allocated(zones, size, at))
                   && SupplyOk(Allocated(zones, size, at), supply)
    ensures !Fits(zones, size) && supply != [] ==>
      var after := Allocated(zones, size, supply[0]);
      Fresh(zones, size, supply[0]) && ZonesOk(after) && HeadOk(after) && SupplyOk(after, supply[1..])
  {
    hide ZonesOk, HeadOk;
    if Fits(zones, size) {
      forall at
        ensures ZonesOk(Allocated(zones, size, at)) && HeadOk(Allocated(zones, size, at))
        ensures SupplyOk(Allocated(zones, size, at), supply)
      {
        CallKeeps(zones, size, at);
      }
    } else if supply != [] {
      var z := NewZone(supply[0], size);
      forall i | 0 <= i < |zones| ensures ZonesApart(z, zones[i]) {
        assert ZonesApart(Room(supply[0]), zones[i]);
      }
      CallKeeps(zones, size, supply[0]);
      forall k | 1 <= k < |supply| ensures ZonesApart(Room(supply[k]), z) {
        assert ZonesApart(Room(supply[0]), Room(supply[k]));
      }
    }
  }

  // ---------- runs ----------

  datatype Request = Request(size: nat, at: nat)

  function AfterAll(rs: seq<Request>): seq<Zone> {
    if rs == [] then []
    else var last := rs[|rs| - 1]; Allocated(AfterAll(rs[..|rs| - 1]), last.size, last.at)
  }

  /** Each zone `malloc` supplied was apart from those then in use. */
  ghost predicate Supplied(rs: seq<Request>) {
    rs != [] ==>
      var last := rs[|rs| - 1];
      Supplied(rs[..|rs| - 1]) && Fresh(AfterAll(rs[..|rs| - 1]), last.size, last.at)
  }

  ghost function ReturnedBlocks(rs: seq<Request>): multiset<Block> {
    if rs == [] then multiset{}
    else
      var last := rs[|rs| - 1];
      ReturnedBlocks(rs[..|rs| - 1]) + multiset{Returned(AfterAll(rs[..|rs| - 1]), last.size, last.at)}
  }

  /** Over every run of calls the zones stay in order and hold exactly the blocks returned. */
  lemma {:induction false} RunKeeps(rs: seq<Request>)
    requires Supplied(rs)
    ensures ZonesOk(AfterAll(rs)) && HeadOk(AfterAll(rs))
    ensures AllBlocks(AfterAll(rs)) == ReturnedBlocks(rs)
    decreases |rs|
  {
    if rs != [] {
      var last, zones := rs[|rs| - 1], AfterAll(rs[..|rs| - 1]);
      RunKeeps(rs[..|rs| - 1]);
      AllocateKeeps(zones, last.size, last.at);
      AllocateAddsOne(zones, last.size, last.at);
    }
  }

  /** What a call does to the head: it is filled further or replaced, and replaced only by an ordinary zone. */
  lemma HeadAfter(zones: seq<Zone>, size: nat, at: nat)
    requires zones != [] && zones[0].used >= HEADER
    ensures var head := Allocated(zones, size, at)[0];
      && head.used >= HEADER
      && (IsOversized(size) ==> head == zones[0])
      && (!IsOversized(size) ==> head.capacity == if Fits(zones, size) then zones[0].capacity else ZONE_SIZE)
    ensures zones[0].used > ZONE_SIZE ==> !Fits(zones, size)
  {
  }

  lemma FirstHead(size: nat, at: nat)
    ensures Allocated([], size, at) == [NewZone(at, size)] && NewZone(at, size).used == HEADER + RoundUp(size)
    ensures NewZone(at, size).capacity == ZONE_SIZE <==> !IsOversized(size)
  {
  }

  /** Over every run the head is an ordinary zone as soon as, and only when, some request was for an ordinary block. */
  lemma {:induction false} HeadIsOrdinaryIff(rs: seq<Request>)
    requires rs != []
    ensures AfterAll(rs) != [] && AfterAll(rs)[0].used >= HEADER
    ensures AfterAll(rs)[0].capacity == ZONE_SIZE <==> exists k :: 0 <= k < |rs| && !IsOversized(rs[k].size)
    ensures (forall k :: 0 <= k < |rs| ==> IsOversized(rs[k].size)) ==> AfterAll(rs)[0].used > ZONE_SIZE
    decreases |rs|
  {
    hide Allocated, Fits, NewZone;
    var n := |rs| - 1;
    var front, last := rs[..n], rs[n];
    assert forall k :: 0 <= k < n ==> rs[k] == front[k];
    if n == 0 {
      FirstHead(last.size, last.at);
    } else {
      HeadIsOrdinaryIff(front);
      HeadAfter(AfterAll(front), last.size, last.at);
      KeepsZones(AfterAll(front), last.size, last.at);
    }
  }

  lemma KeepsZones(zones: seq<Zone>, size: nat, at: nat)
    ensures Allocated(zones, size, at) != []
  {
  }

  // ---------- the allocator over linked zones ----------

  class ZoneNode {
    var next: ZoneNode?
    var used: nat
    const address: nat
    const capacity: nat
    ghost var blocks: seq<Block>

    constructor (address: nat, capacity: nat, used: nat, ghost block: Block)
      ensures this.address == address && this.capacity == capacity && this.used == used && blocks == [block]
        && next == null
    {
      this.address, this.capacity, this.used, this.next := address, capacity, used, null;
      this.blocks := [block];
    }

    ghost function Image(): Zone
      reads this
    {
      Zone(address, capacity, used, blocks)
    }
  }

  class Allocator {
    var head: ZoneNode?
    /** What the next calls of `malloc` return; when there is nothing left they fail. */
    var supply: seq<nat>
    ghost var nodes: seq<ZoneNode>

    constructor (supply: seq<nat>)
      ensures Valid() && nodes == [] && Images() == [] && this.supply == supply
    {
      head, nodes, this.supply := null, [], supply;
    }

    ghost predicate Valid()
      reads this`head, this`nodes, nodes
    {
      && (forall i, j :: 0 <= i < j < |nodes| ==> nodes[i] != nodes[j])
      && (forall i :: 0 <= i < |nodes| - 1 ==> nodes[i].next == nodes[i + 1])
      && (nodes != [] ==> nodes[|nodes| - 1].next == null)
      && head == if nodes == [] then null else nodes[0]
    }

    ghost function Zones(): set<ZoneNode>
      reads this`nodes
    {
      set z | z in nodes
    }

    /** The zones in list order. */
    ghost function Images(): (zs: seq<Zone>)
      reads this`nodes, nodes
      ensures |zs| == |nodes| && forall i :: 0 <= i < |nodes| ==> zs[i] == nodes[i].Image()
    {
      var ns := nodes;
      seq(|ns|, i requires 0 <= i < |ns| reads ns => ns[i].Image())
    }

    lemma HeadImage()
      requires Valid()
      ensures Images() == [] <==> head == null
      ensures head != null ==> head in nodes && Images()[0] == head.Image()
    {
    }

    method TakeFromHead(size: nat) returns (p: nat)
      requires Valid() && head != null
      modifies head
      ensures Valid() && Images() == [Bump(old(Images()[0]), size)] + old(Images())[1..]
      ensures p == old(head.address + head.used)
    {
      p := head.address + head.used;
      head.blocks := head.blocks + [Block(p, size)];
      head.used := head.used + size;
    }

    method LinkInFront(zone: ZoneNode)
      requires Valid() && zone !in nodes
      modifies this`head, this`nodes, zone
      ensures Valid() && nodes == [zone] + old(nodes) && Images() == [old(zone.Image())] + old(Images())
    {
      zone.next := head;
      head := zone;
      nodes := [zone] + nodes;
    }

    method LinkBehind(zone: ZoneNode)
      requires Valid() && zone !in nodes && head != null
      modifies this`nodes, head, zone
      ensures Valid() && nodes == [old(nodes)[0], zone] + old(nodes)[1..]
      ensures Images() == [old(Images())[0], old(zone.Image())] + old(Images())[1..]
    {
      zone.next := head.next;
      head.next := zone;
      nodes := [nodes[0], zone] + nodes[1..];
    }

    /** The part of `allocate` behind `malloc`: a new zone at `at`. */
    method AddZone(size0: nat, at: nat) returns (p: nat)
      requires Valid() && !Fits(Images(), size0)
      modifies this`head, this`nodes, nodes
      ensures Valid() && fresh(Zones() - old(Zones()))
      ensures Images() == Allocated(old(Images()), size0, at) && p == Returned(old(Images()), size0, at).at
    {
      hide Images, RoundUp, Valid, Allocated, Returned, Bump;
      HeadImage();
      ghost var before := Images();
      AllocatedCases(before, size0, at);
      var size := RoundUp(size0);
      var allocSize := HEADER + size;
      var zone := new ZoneNode(at, if allocSize <= ZONE_SIZE then ZONE_SIZE else allocSize, allocSize,
                               Block(at + HEADER, size));
      assert zone.Image() == NewZone(at, size0) && Images() == before;
      if allocSize <= ZONE_SIZE || head == null {
        LinkInFront(zone);
      } else {
        LinkBehind(zone);
      }
      p := zone.address + HEADER;
    }

    /** tools/gason.cpp `allocate`; nothing is returned, and nothing changes, when `malloc` fails. */
    method Allocate(size0: nat) returns (p: Option<nat>)
      requires Valid()
      modifies this, nodes
      ensures Valid() && fresh(Zones() - old(Zones()))
      ensures var zones, s := old(Images()), old(supply);
        if Fits(zones, size0) then
          Images() == Allocated(zones, size0, 0) && p == Some(Returned(zones, size0, 0).at) && supply == s
        else if s == [] then
          Images() == zones && p == None && supply == s
        else
          Images() == Allocated(zones, size0, s[0]) && p == Some(Returned(zones, size0, s[0]).at) && supply == s[1..]
    {
      hide Images, RoundUp, Valid, Allocated, Returned, Bump;
      HeadImage();
      ghost var before := Images();
      var size := RoundUp(size0);
      if head != null && head.used + size <= ZONE_SIZE {
        AllocatedCases(before, size0, 0);
        var at := TakeFromHead(size);
        return Some(at);
      }
      if supply == [] {
        return None;
      }
      var at := supply[0];
      supply := supply[1..];
      var start := AddZone(size0, at);
      p := Some(start);
    }

    /** tools/gason.cpp `deallocate`: every zone is freed once, in list order. */
    method Deallocate() returns (freed: seq<ZoneNode>)
      requires Valid()
      modifies this
      ensures Valid() && nodes == [] && head == null
      ensures freed == old(nodes)
      ensures forall i, j :: 0 <= i < j < |freed| ==> freed[i] != freed[j]
    {
      freed := [];
      ghost var all := nodes;
      while head != null
        invariant |freed| <= |all| && freed == all[..|freed|] && nodes == all[|freed|..]
        invariant Valid()
        decreases |all| - |freed|
      {
        var next := head.next;
        freed := freed + [head];
        head := next;
        nodes := nodes[1..];
      }
    }
  }
}
