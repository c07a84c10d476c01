/**
 Blocks as objects: the heap of template/NLTemplate.cpp. A ghost layout names the objects
 of a block and of everything below it; through it a block is read back as a value, and
 setting, copying, repeating and rendering blocks are proved against those values.
 */
module TemplateHeap {
  import opened Options
  import opened Sequences
  import opened TemplateTree

  datatype Fragment = TextFragment(text: string) | PropertyFragment(name: string) | BlockFragment(block: Block)

  /** A block object with the layouts of its fragments and of its repeated nodes. */
  datatype Layout = Layout(block: Block, parts: seq<Piece>, copies: seq<Layout>)

  datatype Piece = TextPiece(text: string) | VarPiece(name: string) | BlockPiece(layout: Layout)

  // ---------- the objects of a layout ----------

  ghost function Objects(l: Layout): set<Block>
    decreases l
  {
    {l.block} + PartObjects(l.parts) + CopyObjects(l.copies)
  }

  ghost function PartObjects(ps: seq<Piece>): set<Block>
    decreases ps
  {
    if ps == [] then {} else PartObjects(ps[..|ps| - 1]) + PieceObjects(ps[|ps| - 1])
  }

  ghost function PieceObjects(p: Piece): set<Block>
    decreases p
  {
    match p
    case BlockPiece(layout) => Objects(layout)
    case _ => {}
  }

  ghost function CopyObjects(ls: seq<Layout>): set<Block>
    decreases ls
  {
    if ls == [] then {} else CopyObjects(ls[..|ls| - 1]) + Objects(ls[|ls| - 1])
  }

  lemma {:induction false} ObjectsAllocated(l: Layout)
    ensures forall o :: o in Objects(l) ==> allocated(o)
    decreases l
  {
    PartsAllocated(l.parts);
    CopiesAllocated(l.copies);
  }

  lemma {:induction false} PartsAllocated(ps: seq<Piece>)
    ensures forall o :: o in PartObjects(ps) ==> allocated(o)
    decreases ps
  {
    if ps != [] {
      PartsAllocated(ps[..|ps| - 1]);
      PieceAllocated(ps[|ps| - 1]);
    }
  }

  lemma {:induction false} PieceAllocated(p: Piece)
    ensures forall o :: o in PieceObjects(p) ==> allocated(o)
    decreases p
  {
    if p.BlockPiece? { ObjectsAllocated(p.layout); }
  }

  lemma {:induction false} CopiesAllocated(ls: seq<Layout>)
    ensures forall o :: o in CopyObjects(ls) ==> allocated(o)
    decreases ls
  {
    if ls != [] {
      CopiesAllocated(ls[..|ls| - 1]);
      ObjectsAllocated(ls[|ls| - 1]);
    }
  }

  /** No object stands at two places of a layout. */
  ghost predicate Apart(l: Layout)
    decreases l
  {
    && l.block !in PartObjects(l.parts) && l.block !in CopyObjects(l.copies)
    && PartObjects(l.parts) !! CopyObjects(l.copies)
    && ApartParts(l.parts) && ApartCopies(l.copies)
  }

  ghost predicate ApartParts(ps: seq<Piece>)
    decreases ps
  {
    ps == [] ||
    var front, p := ps[..|ps| - 1], ps[|ps| - 1];
    ApartParts(front) && ApartPiece(p) && PartObjects(front) !! PieceObjects(p)
  }

  ghost predicate ApartPiece(p: Piece)
    decreases p
  {
    match p
    case BlockPiece(layout) => Apart(layout)
    case _ => true
  }

  ghost predicate ApartCopies(ls: seq<Layout>)
    decreases ls
  {
    ls == [] ||
    var front, l := ls[..|ls| - 1], ls[|ls| - 1];
    ApartCopies(front) && Apart(l) && CopyObjects(front) !! Objects(l)
  }

  // ---------- the heap is laid out so ----------

  function FragmentOf(p: Piece): Fragment {
    match p
    case TextPiece(text) => TextFragment(text)
    case VarPiece(name) => PropertyFragment(name)
    case BlockPiece(layout) => BlockFragment(layout.block)
  }

  function Fragments(ps: seq<Piece>): (r: seq<Fragment>)
    ensures |r| == |ps| && forall k :: 0 <= k < |ps| ==> r[k] == FragmentOf(ps[k])
  {
    seq(|ps|, k requires 0 <= k < |ps| => FragmentOf(ps[k]))
  }

  function Blocks(ls: seq<Layout>): (r: seq<Block>)
    ensures |r| == |ls| && forall k :: 0 <= k < |ls| ==> r[k] == ls[k].block
  {
    seq(|ls|, k requires 0 <= k < |ls| => ls[k].block)
  }

  ghost predicate Holds(l: Layout)
    reads Objects(l)
    decreases l
  {
    && l.block.fragments == Fragments(l.parts) && l.block.nodes == Blocks(l.copies)
    && HoldsParts(l.parts) && HoldsCopies(l.copies)
  }

  ghost predicate HoldsParts(ps: seq<Piece>)
    reads PartObjects(ps)
    decreases ps
  {
    ps == [] || (HoldsParts(ps[..|ps| - 1]) && HoldsPiece(ps[|ps| - 1]))
  }

  ghost predicate HoldsPiece(p: Piece)
    reads PieceObjects(p)
    decreases p
  {
    match p
    case BlockPiece(layout) => Holds(layout)
    case _ => true
  }

  ghost predicate HoldsCopies(ls: seq<Layout>)
    reads CopyObjects(ls)
    decreases ls
  {
    ls == [] || (HoldsCopies(ls[..|ls| - 1]) && Holds(ls[|ls| - 1]))
  }

  ghost predicate Valid(l: Layout)
    reads Objects(l)
  {
    Apart(l) && Holds(l)
  }

  // ---------- reading a layout back as a value ----------

  ghost function ViewOf(l: Layout): View
    reads Objects(l)
    decreases l
  {
    View(l.block.name, l.block.properties, l.block.enabled, l.block.resized, ViewParts(l.parts), ViewCopies(l.copies))
  }

  ghost function ViewParts(ps: seq<Piece>): (r: seq<Part>)
    reads PartObjects(ps)
    ensures |r| == |ps|
    decreases ps
  {
    if ps == [] then [] else ViewParts(ps[..|ps| - 1]) + [ViewPiece(ps[|ps| - 1])]
  }

  ghost function ViewPiece(p: Piece): Part
    reads PieceObjects(p)
    decreases p
  {
    match p
    case TextPiece(text) => TextPart(text)
    case VarPiece(name) => VarPart(name)
    case BlockPiece(layout) => BlockPart(ViewOf(layout))
  }

  ghost function ViewCopies(ls: seq<Layout>): (r: seq<View>)
    reads CopyObjects(ls)
    ensures |r| == |ls|
    decreases ls
  {
    if ls == [] then [] else ViewCopies(ls[..|ls| - 1]) + [ViewOf(ls[|ls| - 1])]
  }

  // ---------- prefixes and elements ----------

  ghost predicate ValidParts(ps: seq<Piece>)
    reads PartObjects(ps)
  {
    ApartParts(ps) && HoldsParts(ps)
  }

  ghost predicate ValidPiece(p: Piece)
    reads PieceObjects(p)
  {
    ApartPiece(p) && HoldsPiece(p)
  }

  /** The pieces of a valid list up to any of them, and that piece. */
  lemma {:induction false} PrefixOfParts(ps: seq<Piece>, i: nat)
    requires ValidParts(ps) && i < |ps|
    ensures PartObjects(ps[..i + 1]) <= PartObjects(ps) && PartObjects(ps[..i]) <= PartObjects(ps)
    ensures PieceObjects(ps[i]) <= PartObjects(ps) && ValidPiece(ps[i])
    ensures ViewParts(ps[..i + 1]) == ViewParts(ps[..i]) + [ViewPiece(ps[i])]
    ensures ViewParts(ps)[i] == ViewPiece(ps[i])
    decreases |ps|
  {
    var n := |ps| - 1;
    assert ps[..i + 1][..i] == ps[..i];
    if i == n {
      assert ps[..i + 1] == ps;
    } else {
      PrefixOfParts(ps[..n], i);
      assert ps[..n][..i + 1] == ps[..i + 1] && ps[..n][..i] == ps[..i];
    }
  }

  ghost predicate ValidCopies(ls: seq<Layout>)
    reads CopyObjects(ls)
  {
    ApartCopies(ls) && HoldsCopies(ls)
  }

  lemma {:induction false} PrefixOfCopies(ls: seq<Layout>, i: nat)
    requires ValidCopies(ls) && i < |ls|
    ensures CopyObjects(ls[..i + 1]) <= CopyObjects(ls) && CopyObjects(ls[..i]) <= CopyObjects(ls)
    ensures Objects(ls[i]) <= CopyObjects(ls) && Valid(ls[i])
    ensures ViewCopies(ls[..i + 1]) == ViewCopies(ls[..i]) + [ViewOf(ls[i])]
    ensures ViewCopies(ls)[i] == ViewOf(ls[i])
    decreases |ls|
  {
    var n := |ls| - 1;
    assert ls[..i + 1][..i] == ls[..i];
    if i == n {
      assert ls[..i + 1] == ls;
    } else {
      PrefixOfCopies(ls[..n], i);
      assert ls[..n][..i + 1] == ls[..i + 1] && ls[..n][..i] == ls[..i];
    }
  }

  /** Any two copies have no object in common. */
  lemma {:induction false} CopiesAreDisjoint(ls: seq<Layout>, i: nat, j: nat)
    requires ApartCopies(ls) && i < j < |ls|
    ensures Objects(ls[i]) !! Objects(ls[j]) && Objects(ls[i]) <= CopyObjects(ls)
    decreases |ls|
  {
    var n := |ls| - 1;
    if j == n {
      ObjectsOfCopy(ls[..n], i);
    } else {
      CopiesAreDisjoint(ls[..n], i, j);
    }
  }

  lemma CopiesApart(ls: seq<Layout>, i: nat, j: nat)
    requires ApartCopies(ls) && i < |ls| && j < |ls| && i != j
    ensures ls[i].block !in Objects(ls[j])
  {
    if i < j { CopiesAreDisjoint(ls, i, j); } else { CopiesAreDisjoint(ls, j, i); }
  }

  lemma InCopies(ls: seq<Layout>, i: nat)
    requires i < |ls|
    ensures ls[i].block in CopyObjects(ls)
  {
    ObjectsOfCopy(ls, i);
  }

  lemma {:induction false} ObjectsOfCopy(ls: seq<Layout>, i: nat)
    requires i < |ls|
    ensures Objects(ls[i]) <= CopyObjects(ls)
    decreases |ls|
  {
    if i < |ls| - 1 { ObjectsOfCopy(ls[..|ls| - 1], i); }
  }

  lemma AppendPiece(ps: seq<Piece>, p: Piece)
    requires ValidParts(ps) && ValidPiece(p) && PartObjects(ps) !! PieceObjects(p)
    ensures ValidParts(ps + [p]) && PartObjects(ps + [p]) == PartObjects(ps) + PieceObjects(p)
    ensures ViewParts(ps + [p]) == ViewParts(ps) + [ViewPiece(p)]
  {
    TakeSnoc(ps, p);
  }

  lemma FragmentsSnoc(ps: seq<Piece>, p: Piece)
    ensures Fragments(ps + [p]) == Fragments(ps) + [FragmentOf(p)]
  {
    TakeSnoc(ps, p);
  }

  lemma AppendCopy(ls: seq<Layout>, l: Layout)
    requires ValidCopies(ls) && Valid(l) && CopyObjects(ls) !! Objects(l)
    ensures ValidCopies(ls + [l]) && CopyObjects(ls + [l]) == CopyObjects(ls) + Objects(l)
    ensures ViewCopies(ls + [l]) == ViewCopies(ls) + [ViewOf(l)]
  {
    TakeSnoc(ls, l);
  }

  lemma BlocksSnoc(ls: seq<Layout>, l: Layout)
    ensures Blocks(ls + [l]) == Blocks(ls) + [l.block]
  {
    TakeSnoc(ls, l);
  }

  // ---------- blocks ----------

  class Block {
    const name: string
    var properties: Properties
    var fragments: seq<Fragment>
    var enabled: bool
    var resized: bool
    var nodes: seq<Block>

    constructor (name: string)
      ensures this.name == name && properties == [] && fragments == [] && enabled && !resized && nodes == []
    {
      this.name, properties, fragments, enabled, resized, nodes := name, [], [], true, false, [];
    }

    /** template/NLTemplate.cpp `Dictionary::find`. */
    method FindProperty(name: string) returns (value: string)
      ensures value == Find(properties, name)
    {
      var i := 0;
      while i < |properties|
        invariant i <= |properties|
        invariant Find(properties, name) == Find(properties[i..], name)
      {
        if properties[i].0 == name { return properties[i].1; }
        assert properties[i..][1..] == properties[i + 1..];
        i := i + 1;
      }
      return "";
    }

    /** template/NLTemplate.cpp `Dictionary::set`. */
    method Set(name: string, value: string)
      modifies this`properties
      ensures properties == Assign(old(properties), name, value)
    {
      var i := 0;
      while i < |properties|
        invariant i <= |properties| && properties == old(properties)
        invariant Assign(properties, name, value) == properties[..i] + Assign(properties[i..], name, value)
      {
        if properties[i].0 == name {
          assert properties[i := (name, value)] == properties[..i] + ([(name, value)] + properties[i..][1..]);
          properties := properties[i := (properties[i].0, value)];
          return;
        }
        assert properties[i..][1..] == properties[i + 1..];
        assert properties[..i] + [properties[i]] == properties[..i + 1];
        Associative(properties[..i], [properties[i]], Assign(properties[i + 1..], name, value));
        i := i + 1;
      }
      assert properties[..i] == properties;
      properties := properties + [(name, value)];
    }

    method Enable()
      modifies this`enabled
      ensures enabled
    {
      enabled := true;
    }

    method Disable()
      modifies this`enabled
      ensures !enabled
    {
      enabled := false;
    }

    /**
     template/NLTemplate.cpp `Node::block`: the first block of a name among the fragments, which the
     source throws for lack of.
     */
    method FindBlock(name: string) returns (found: Option<Block>)
      ensures match found
        case None => forall k :: 0 <= k < |fragments| ==> !IsBlockNamed(fragments[k], name)
        case Some(b) =>
          exists k ::
            && 0 <= k < |fragments| && fragments[k] == BlockFragment(b) && IsBlockNamed(fragments[k], name)
            && forall j :: 0 <= j < k ==> !IsBlockNamed(fragments[j], name)
    {
      var i := 0;
      while i < |fragments|
        invariant i <= |fragments| && forall k :: 0 <= k < i ==> !IsBlockNamed(fragments[k], name)
      {
        if IsBlockNamed(fragments[i], name) { return Some(fragments[i].block); }
        i := i + 1;
      }
      return None;
    }

    /** template/NLTemplate.cpp `Block::copy`: all new objects, holding the copied value. */
    method Copy(ghost l: Layout) returns (block: Block, ghost m: Layout)
      requires l.block == this && Valid(l)
      ensures m.block == block && Valid(m) && fresh(Objects(m))
      ensures m.copies == [] && ViewOf(m) == CopyOf(ViewOf(l))
      decreases l
    {
      hide Valid, ValidParts, ValidPiece, ValidCopies, Objects, PartObjects, ViewParts, CopyParts, Fragments,
        FragmentOf, Blocks;
      LayoutFacts(l);
      PartsAllocated(l.parts);
      block := new Block(name);
      block.properties := properties;
      ghost var done: seq<Piece> := [];
      NoPieces();
      var i := 0;
      while i < |fragments|
        invariant i <= |fragments| == |l.parts| && ValidParts(l.parts) && block !in PartObjects(l.parts)
        invariant fresh(block) && block.name == name && block.properties == properties
        invariant block.enabled && !block.resized && block.nodes == [] && block.fragments == Fragments(done)
        invariant ValidParts(done) && fresh(PartObjects(done)) && block !in PartObjects(done)
        invariant ViewParts(done) == CopyParts(ViewParts(l.parts[..i]))
        decreases |fragments| - i
      {
        PrefixOfParts(l.parts, i);
        PartsAllocated(done);
        ghost var piece;
        var copy;
        copy, piece := CopyFragment(fragments[i], l.parts[i]);
        CopyPartsSnoc(ViewParts(l.parts[..i]), ViewPiece(l.parts[i]));
        AppendPiece(done, piece);
        FragmentsSnoc(done, piece);
        done := done + [piece];
        block.fragments := block.fragments + [copy];
        i := i + 1;
      }
      m := Layout(block, done, []);
      assert l.parts[..i] == l.parts;
      NoCopies();
      MakeLayout(m);
    }

    /** template/NLTemplate.cpp `Block::repeat`: new copies, apart from the block and from one another. */
    method Repeat(n: nat, ghost l: Layout) returns (ghost m: Layout)
      requires l.block == this && Valid(l)
      modifies this
      ensures m.block == this && m.parts == l.parts && |m.copies| == n
      ensures Valid(m) && fresh(CopyObjects(m.copies))
      ensures ViewOf(m) == Repeated(old(ViewOf(l)), n)
    {
      hide Apart, ApartParts, ApartCopies, Objects, PartObjects, CopyObjects, HoldsParts, HoldsCopies, Holds,
        ViewParts, ViewCopies;
      LayoutFacts(l);
      PartsAllocated(l.parts);
      ghost var view := ViewOf(l);
      resized := true;
      nodes := [];
      m := Layout(this, l.parts, []);
      NoCopies();
      MakeLayout(m);
      for i := 0 to n
        invariant m.block == this && m.parts == l.parts && |m.copies| == i && Valid(m)
        invariant fresh(CopyObjects(m.copies)) && this !in PartObjects(l.parts)
        invariant ViewOf(m) == Repeated(view, i)
      {
        LayoutFacts(m);
        CopiesAllocated(m.copies);
        var copy;
        ghost var c;
        copy, c := Copy(m);
        AppendCopy(m.copies, c);
        BlocksSnoc(m.copies, c);
        nodes := nodes + [copy];
        m := Layout(this, l.parts, m.copies + [c]);
        MakeLayout(m);
      }
    }

    /** Setting a variable in one of the repeated nodes: `block[i].set(name, value)`. */
    method SetInCopy(i: nat, name: string, value: string, ghost l: Layout)
      requires l.block == this && Valid(l) && i < |nodes|
      modifies nodes[i]
      ensures Valid(l)
      ensures var views := old(ViewOf(l)).copies;
        ViewOf(l) == old(ViewOf(l)).(copies :=
          views[i := views[i].(properties := Assign(views[i].properties, name, value))])
    {
      hide Apart, ApartParts, ApartCopies, Objects, PartObjects, CopyObjects, HoldsParts, HoldsCopies, Holds,
        ViewParts, ViewCopies;
      LayoutFacts(l);
      ghost var was := ViewOf(l);
      ghost var c := l.copies[i];
      ghost var views := was.copies[i := was.copies[i].(properties := Assign(was.copies[i].properties, name, value))];
      forall j | 0 <= j < |l.copies|
        ensures Valid(l.copies[j]) && ViewOf(l.copies[j]) == was.copies[j]
          && forall o :: o in Objects(l.copies[j]) ==> allocated(o)
      {
        PrefixOfCopies(l.copies, j);
        ObjectsAllocated(l.copies[j]);
      }
      forall j | 0 <= j < |l.copies| && j != i ensures c.block !in Objects(l.copies[j]) { CopiesApart(l.copies, i, j); }
      LayoutFacts(c);
      PartsAllocated(l.parts);
      PartsAllocated(c.parts);
      CopiesAllocated(c.copies);
      InCopies(l.copies, i);
      nodes[i].Set(name, value);
      MakeLayout(c);
      forall j | 0 <= j < |l.copies| ensures ElementKept(l.copies, j, views) {
        ObjectsOfCopy(l.copies, j);
      }
      CopiesByElement(l.copies, views);
      MakeLayout(l);
    }

    /** template/NLTemplate.cpp `Node::render`, of a block's own fragments. */
    method RenderNode(ghost l: Layout) returns (output: string)
      requires l.block == this && Valid(l)
      ensures output == RenderParts(ViewParts(l.parts), properties)
      decreases l, 0
    {
      hide Valid, ValidParts, ValidPiece, ValidCopies, Objects, PartObjects, ViewParts, Fragments, RenderParts;
      LayoutFacts(l);
      PartsAllocated(l.parts);
      output := "";
      NothingRendered(properties);
      var i := 0;
      while i < |fragments|
        invariant i <= |fragments|
        invariant ValidParts(l.parts) && output == RenderParts(ViewParts(l.parts[..i]), properties)
        decreases |fragments| - i
      {
        PrefixOfParts(l.parts, i);
        RenderSnoc(ViewParts(l.parts[..i]), ViewPiece(l.parts[i]), properties);
        var segment := RenderFragment(fragments[i], l.parts[i]);
        output := output + segment;
        i := i + 1;
      }
      assert l.parts[..i] == l.parts;
    }

    /** The `render` of the three kinds of fragments, given the dictionary of this node. */
    method RenderFragment(f: Fragment, ghost p: Piece) returns (output: string)
      requires f == FragmentOf(p) && ValidPiece(p)
      ensures output == RenderPart(ViewPiece(p), properties)
      decreases p, 2
    {
      match f {
        case TextFragment(text) => output := text;
        case PropertyFragment(name) => output := FindProperty(name);
        case BlockFragment(b) => output := b.Render(p.layout);
      }
    }

    /** template/NLTemplate.cpp `Block::render`. */
    method Render(ghost l: Layout) returns (output: string)
      requires l.block == this && Valid(l)
      ensures output == RenderBlock(ViewOf(l))
      decreases l, 1
    {
      hide Valid, ValidParts, ValidPiece, ValidCopies, Objects, PartObjects, ViewParts, CopyObjects, ViewCopies,
        RenderParts, RenderCopies;
      LayoutFacts(l);
      CopiesAllocated(l.copies);
      output := "";
      if enabled {
        if resized {
          NothingCopied();
          var i := 0;
          while i < |nodes|
            invariant i <= |nodes| == |l.copies|
            invariant ValidCopies(l.copies) && output == RenderCopies(ViewCopies(l.copies[..i]))
            decreases |nodes| - i
          {
            PrefixOfCopies(l.copies, i);
            CopiesSnoc(ViewCopies(l.copies[..i]), ViewOf(l.copies[i]));
            var segment := nodes[i].Render(l.copies[i]);
            output := output + segment;
            i := i + 1;
          }
          assert l.copies[..i] == l.copies;
        } else {
          output := RenderNode(l);
        }
      }
    }

    /** The copies of the three kinds of fragments. */
    static method CopyFragment(f: Fragment, ghost p: Piece) returns (copy: Fragment, ghost piece: Piece)
      requires f == FragmentOf(p) && ValidPiece(p)
      ensures copy == FragmentOf(piece) && ValidPiece(piece) && fresh(PieceObjects(piece))
      ensures ViewPiece(piece) == CopyPart(ViewPiece(p))
      decreases p
    {
      match f {
        case TextFragment(text) => copy, piece := f, p;
        case PropertyFragment(name) => copy, piece := f, p;
        case BlockFragment(b) =>
          var c: Block;
          ghost var m: Layout;
          c, m := b.Copy(p.layout);
          copy, piece := BlockFragment(c), BlockPiece(m);
      }
    }
  }

  predicate IsBlockNamed(f: Fragment, name: string) {
    f.BlockFragment? && f.block.name == name
  }

  lemma LayoutFacts(l: Layout)
    requires Valid(l)
    ensures l.block.fragments == Fragments(l.parts) && l.block.nodes == Blocks(l.copies)
    ensures |l.block.fragments| == |l.parts|
    ensures forall k :: 0 <= k < |l.parts| ==> l.block.fragments[k] == FragmentOf(l.parts[k])
    ensures ValidParts(l.parts) && ValidCopies(l.copies)
    ensures PartObjects(l.parts) <= Objects(l) && CopyObjects(l.copies) <= Objects(l)
    ensures l.block !in PartObjects(l.parts) && l.block !in CopyObjects(l.copies)
      && PartObjects(l.parts) !! CopyObjects(l.copies)
  {
  }

  lemma NoPieces()
    ensures PartObjects([]) == {} && ValidParts([]) && Fragments([]) == []
    ensures ViewParts([]) == [] && CopyParts([]) == []
  {
  }

  lemma NothingRendered(properties: Properties)
    ensures ViewParts([]) == [] && RenderParts([], properties) == ""
  {
  }

  lemma NothingCopied()
    ensures ViewCopies([]) == [] && RenderCopies([]) == ""
  {
  }

  lemma RenderSnoc(ps: seq<Part>, p: Part, properties: Properties)
    ensures RenderParts(ps + [p], properties) == RenderParts(ps, properties) + RenderPart(p, properties)
  {
    TakeSnoc(ps, p);
  }

  lemma CopyPartsSnoc(ps: seq<Part>, p: Part)
    ensures CopyParts(ps + [p]) == CopyParts(ps) + [CopyPart(p)]
  {
    TakeSnoc(ps, p);
  }

  lemma MakeLayout(m: Layout)
    requires m.block !in PartObjects(m.parts) && m.block !in CopyObjects(m.copies)
    requires PartObjects(m.parts) !! CopyObjects(m.copies)
    requires ValidParts(m.parts) && ValidCopies(m.copies)
    requires m.block.fragments == Fragments(m.parts) && m.block.nodes == Blocks(m.copies)
    ensures Valid(m) && Objects(m) == {m.block} + PartObjects(m.parts) + CopyObjects(m.copies)
    ensures ViewOf(m).parts == ViewParts(m.parts) && ViewOf(m).copies == ViewCopies(m.copies)
  {
  }

  lemma NoCopies()
    ensures CopyObjects([]) == {} && ValidCopies([]) && Blocks([]) == [] && ViewCopies([]) == []
  {
  }

  // ---------- copies one by one ----------

  /** Element `j` is valid and reads back as given. */
  ghost predicate ElementKept(ls: seq<Layout>, j: nat, views: seq<View>)
    requires j < |ls| == |views|
    reads CopyObjects(ls)
  {
    ObjectsOfCopy(ls, j);
    Valid(ls[j]) && ViewOf(ls[j]) == views[j]
  }

  /** A list of copies is valid and reads back as its elements do. */
  lemma {:induction false} CopiesByElement(ls: seq<Layout>, views: seq<View>)
    requires |ls| == |views| && ApartCopies(ls)
    requires forall j :: 0 <= j < |ls| ==> ElementKept(ls, j, views)
    ensures ValidCopies(ls) && ViewCopies(ls) == views
    decreases |ls|
  {
    if ls != [] {
      var n := |ls| - 1;
      forall j | 0 <= j < n ensures ElementKept(ls[..n], j, views[..n]) {
        assert ElementKept(ls, j, views);
      }
      CopiesByElement(ls[..n], views[..n]);
      assert ElementKept(ls, n, views);
      SnocLast(views);
    }
  }
}
