/**
 Loading a template: the recursive loader of template/NLTemplate.cpp over a finite map of
 files without include cycles, and the proof that it builds what one pass over the
 flattened token stream builds.
 */
module TemplateLoad {
  import opened Sequences
  import opened TemplateTokens
  import opened TemplateTree
  import opened TemplateHeap

  // ---------- includes as splicing ----------

  type Files = map<string, string>

  /** Every include of the tokens that can be loaded is ranked below the bound. */
  ghost predicate IncludesBelow(files: Files, rank: map<string, nat>, bound: nat, ts: seq<Token>) {
    forall k :: 0 <= k < |ts| && ts[k].Include? && ts[k].name in files ==>
                  ts[k].name in rank && rank[ts[k].name] < bound
  }

  /** No file includes itself, however indirectly: each one has a rank above those it includes. */
  ghost predicate Acyclic(files: Files, rank: map<string, nat>) {
    forall name :: name in files ==>
                     name in rank && IncludesBelow(files, rank, rank[name], Tokens(files[name], 0))
  }

  /**
   The tokens of a file with each include replaced by the tokens of the included file, or by none if
   it cannot be loaded.
   */
  ghost function Flatten(files: Files, rank: map<string, nat>, name: string): seq<Token>
    requires Acyclic(files, rank)
    decreases if name in files then rank[name] + 1 else 0, 0
  {
    if name in files then Splice(files, rank, rank[name], Tokens(files[name], 0)) else []
  }

  ghost function Splice(files: Files, rank: map<string, nat>, bound: nat, ts: seq<Token>): seq<Token>
    requires Acyclic(files, rank) && IncludesBelow(files, rank, bound, ts)
    decreases bound, 1, |ts|
  {
    if ts == [] then []
    else
      (if ts[0].Include? then Flatten(files, rank, ts[0].name) else [ts[0]]) + Splice(files, rank, bound, ts[1..])
  }

  lemma {:induction false} SpliceIsFlat(files: Files, rank: map<string, nat>, bound: nat, ts: seq<Token>)
    requires Acyclic(files, rank) && IncludesBelow(files, rank, bound, ts) && forall k :: 0 <= k < |ts| ==> !ts[k].End?
    ensures IsFlat(Splice(files, rank, bound, ts))
    decreases bound, 1, |ts|
  {
    if ts != [] {
      if ts[0].Include? { FlattenIsFlat(files, rank, ts[0].name); }
      SpliceIsFlat(files, rank, bound, ts[1..]);
    }
  }

  lemma {:induction false} FlattenIsFlat(files: Files, rank: map<string, nat>, name: string)
    requires Acyclic(files, rank)
    ensures IsFlat(Flatten(files, rank, name))
    decreases if name in files then rank[name] + 1 else 0, 0
  {
    if name in files {
      TokensSpell(files[name], 0);
      SpliceIsFlat(files, rank, rank[name], Tokens(files[name], 0));
    }
  }

  lemma {:induction false} SpliceAnyRank(files: Files, rank: map<string, nat>, other: map<string, nat>,
                                         bound: nat, bound': nat, ts: seq<Token>)
    requires Acyclic(files, rank) && IncludesBelow(files, rank, bound, ts)
    requires Acyclic(files, other) && IncludesBelow(files, other, bound', ts)
    ensures Splice(files, rank, bound, ts) == Splice(files, other, bound', ts)
    decreases bound, 1, |ts|
  {
    if ts != [] {
      if ts[0].Include? { FlattenAnyRank(files, rank, other, ts[0].name); }
      SpliceAnyRank(files, rank, other, bound, bound', ts[1..]);
    }
  }

  /** The ranks only witness that includes end: the flattened stream does not depend on them. */
  lemma {:induction false} FlattenAnyRank(files: Files, rank: map<string, nat>, other: map<string, nat>, name: string)
    requires Acyclic(files, rank) && Acyclic(files, other)
    ensures Flatten(files, rank, name) == Flatten(files, other, name)
    decreases if name in files then rank[name] + 1 else 0, 0
  {
    if name in files {
      SpliceAnyRank(files, rank, other, rank[name], other[name], Tokens(files[name], 0));
    }
  }

  // ---------- the stack of open blocks ----------

  /** An open block and its fragments but for the block open inside it. */
  datatype Open = Open(block: Block, parts: seq<Piece>)

  ghost function OpenObjects(stack: seq<Open>): set<Block> {
    if stack == [] then {}
    else
      var top := stack[|stack| - 1];
      OpenObjects(stack[..|stack| - 1]) + {top.block} + PartObjects(top.parts)
  }

  function OpenBlocks(stack: seq<Open>): (r: seq<Block>)
    ensures |r| == |stack| && forall k :: 0 <= k < |stack| ==> r[k] == stack[k].block
  {
    seq(|stack|, k requires 0 <= k < |stack| => stack[k].block)
  }

  /** The objects of the stack are apart, and each open block but the last ends in the next one. */
  ghost predicate Linked(stack: seq<Open>, inner: seq<Fragment>)
    reads OpenObjects(stack)
  {
    stack == [] ||
    var n := |stack| - 1;
    var top := stack[n];
    && ValidParts(top.parts) && top.block !in PartObjects(top.parts)
    && top.block.fragments == Fragments(top.parts) + inner
    && (n > 0 ==> IsUntouched(top.block))
    && {top.block} + PartObjects(top.parts) !! OpenObjects(stack[..n])
    && Linked(stack[..n], [BlockFragment(top.block)])
  }

  ghost predicate IsUntouched(b: Block)
    reads b
  {
    b.properties == [] && b.enabled && !b.resized && b.nodes == []
  }

  ghost function FramesOf(stack: seq<Open>): (r: seq<Frame>)
    reads OpenObjects(stack)
    ensures |r| == |stack|
  {
    if stack == [] then []
    else
      var top := stack[|stack| - 1];
      FramesOf(stack[..|stack| - 1]) + [Frame(top.block.name, ViewParts(top.parts))]
  }

  lemma {:induction false} OpenAllocated(stack: seq<Open>)
    ensures forall o :: o in OpenObjects(stack) ==> allocated(o)
    decreases |stack|
  {
    if stack != [] {
      OpenAllocated(stack[..|stack| - 1]);
      PartsAllocated(stack[|stack| - 1].parts);
    }
  }

  function Popped(stack: seq<Open>): (r: seq<Open>)
    requires |stack| > 1
    ensures |r| == |stack| - 1
  {
    var n := |stack| - 1;
    stack[..n - 1]
    + [Open(stack[n - 1].block, stack[n - 1].parts + [BlockPiece(Layout(stack[n].block, stack[n].parts, []))])]
  }

  lemma TopClosed(stack: seq<Open>)
    requires |stack| > 1 && Linked(stack, [])
    ensures var top := stack[|stack| - 1];
      var piece := BlockPiece(Layout(top.block, top.parts, []));
      ValidPiece(piece) && PieceObjects(piece) == {top.block} + PartObjects(top.parts)
      && ViewPiece(piece) == BlockPart(NewView(Frame(top.block.name, ViewParts(top.parts))))
  {
    var top := stack[|stack| - 1];
    NoCopies();
    MakeLayout(Layout(top.block, top.parts, []));
    assert Fragments(top.parts) + [] == Fragments(top.parts);
  }

  ghost function TopObjects(top: Open): set<Block> {
    {top.block} + PartObjects(top.parts)
  }

  ghost predicate IsOpen(top: Open, inner: seq<Fragment>)
    reads TopObjects(top)
  {
    && ValidParts(top.parts) && top.block !in PartObjects(top.parts)
    && top.block.fragments == Fragments(top.parts) + inner
  }

  lemma Unlink(stack: seq<Open>, inner: seq<Fragment>)
    requires stack != [] && Linked(stack, inner)
    ensures var n := |stack| - 1;
      && IsOpen(stack[n], inner) && (n > 0 ==> IsUntouched(stack[n].block))
      && TopObjects(stack[n]) !! OpenObjects(stack[..n])
      && Linked(stack[..n], [BlockFragment(stack[n].block)])
      && OpenObjects(stack) == OpenObjects(stack[..n]) + TopObjects(stack[n])
      && FramesOf(stack) == FramesOf(stack[..n]) + [Frame(stack[n].block.name, ViewParts(stack[n].parts))]
  {
  }

  lemma Link(below: seq<Open>, top: Open, inner: seq<Fragment>)
    requires IsOpen(top, inner) && (below != [] ==> IsUntouched(top.block))
    requires TopObjects(top) !! OpenObjects(below)
    requires Linked(below, [BlockFragment(top.block)])
    ensures Linked(below + [top], inner) && OpenObjects(below + [top]) == OpenObjects(below) + TopObjects(top)
    ensures FramesOf(below + [top]) == FramesOf(below) + [Frame(top.block.name, ViewParts(top.parts))]
  {
    TakeSnoc(below, top);
  }

  /** The end of a block changes nothing in the heap: the block is where it belongs already. */
  lemma PopKeeps(stack: seq<Open>)
    requires |stack| > 1 && Linked(stack, [])
    ensures Linked(Popped(stack), []) && OpenObjects(Popped(stack)) == OpenObjects(stack)
    ensures FramesOf(Popped(stack)) == CloseTop(FramesOf(stack))
  {
    hide Linked, OpenObjects, FramesOf, ValidParts, ValidPiece, PartObjects, PieceObjects, ViewParts, Fragments;
    var n := |stack| - 1;
    var below := stack[..n];
    var rest, parent, top := below[..n - 1], below[n - 1], stack[n];
    var piece := BlockPiece(Layout(top.block, top.parts, []));
    Unlink(stack, []);
    Unlink(below, [BlockFragment(top.block)]);
    TopClosed(stack);
    AppendPiece(parent.parts, piece);
    FragmentsSnoc(parent.parts, piece);
    Link(rest, Open(parent.block, parent.parts + [piece]), []);
    TakeTwice(stack, n);
    ClosedFrames(FramesOf(rest), Frame(parent.block.name, ViewParts(parent.parts)),
                 Frame(top.block.name, ViewParts(top.parts)));
  }

  lemma TakeTwice<T>(s: seq<T>, n: nat)
    requires 0 < n <= |s|
    ensures s[..n][..n - 1] == s[..n - 1]
  {
  }

  lemma ClosedFrames(fs: seq<Frame>, parent: Frame, top: Frame)
    ensures CloseTop(fs + [parent] + [top]) == fs + [parent.(parts := parent.parts + [BlockPart(NewView(top))])]
  {
    TakeSnoc(fs + [parent], top);
    TakeSnoc(fs, parent);
  }

  lemma {:induction false} Collapse(stack: seq<Open>) returns (root: Open)
    requires stack != [] && Linked(stack, [])
    ensures root.block == stack[0].block && Linked([root], []) && OpenObjects([root]) == OpenObjects(stack)
    ensures FramesOf([root]) == [Root(FramesOf(stack))]
    decreases |stack|
  {
    if |stack| == 1 {
      root := stack[0];
      assert stack == [root];
    } else {
      PopKeeps(stack);
      root := Collapse(Popped(stack));
    }
  }

  // ---------- loading ----------

  /** The branches of the loader's switch that add a text or a variable to the innermost open block. */
  method AddFragment(node: Block, f: Fragment, ghost p: Piece, ghost stack: seq<Open>) returns (ghost longer: seq<Open>)
    requires stack != [] && Linked(stack, []) && node == stack[|stack| - 1].block
    requires f == FragmentOf(p) && !p.BlockPiece?
    modifies node`fragments
    ensures |longer| == |stack| && OpenBlocks(longer) == OpenBlocks(stack)
    ensures Linked(longer, []) && OpenObjects(longer) == OpenObjects(stack)
    ensures FramesOf(longer) == AddPart(old(FramesOf(stack)), ViewPiece(p))
  {
    hide Linked, OpenObjects, FramesOf, ValidParts, PartObjects, ViewParts, Fragments;
    ghost var n := |stack| - 1;
    ghost var below, top := stack[..n], stack[n];
    OpenAllocated(below);
    PartsAllocated(top.parts);
    Unlink(stack, []);
    node.fragments := node.fragments + [f];
    PieceIsAlone(p);
    AppendPiece(top.parts, p);
    FragmentsSnoc(top.parts, p);
    Link(below, Open(node, top.parts + [p]), []);
    longer := below + [Open(node, top.parts + [p])];
  }

  lemma PieceIsAlone(p: Piece)
    requires !p.BlockPiece?
    ensures ValidPiece(p) && PieceObjects(p) == {}
  {
  }

  /** The branch that opens a block. */
  method OpenBlock(node: Block, name: string, ghost stack: seq<Open>) returns (block: Block, ghost deeper: seq<Open>)
    requires stack != [] && Linked(stack, []) && node == stack[|stack| - 1].block
    modifies node`fragments
    ensures fresh(block) && deeper == stack + [Open(block, [])]
    ensures Linked(deeper, []) && OpenObjects(deeper) == OpenObjects(stack) + {block}
    ensures FramesOf(deeper) == old(FramesOf(stack)) + [Frame(name, [])]
  {
    hide Linked, OpenObjects, FramesOf, ValidParts, PartObjects, ViewParts, Fragments;
    ghost var n := |stack| - 1;
    ghost var below, top := stack[..n], stack[n];
    OpenAllocated(below);
    OpenAllocated(stack);
    PartsAllocated(top.parts);
    Unlink(stack, []);
    block := new Block(name);
    node.fragments := node.fragments + [BlockFragment(block)];
    NoPieces();
    Link(below, top, [BlockFragment(block)]);
    SnocLast(stack);
    Link(stack, Open(block, []), []);
    deeper := stack + [Open(block, [])];
  }

  /** Everything about a block but its fragments. */
  function SettingsOf(b: Block): (Properties, bool, bool, seq<Block>)
    reads b
  {
    (b.properties, b.enabled, b.resized, b.nodes)
  }

  /** What one token other than an include does to the open blocks. */
  method TakeToken(nodes: seq<Block>, token: Token, ghost stack: seq<Open>)
    returns (rest: seq<Block>, ghost after: seq<Open>)
    requires stack != [] && Linked(stack, []) && nodes == OpenBlocks(stack)
    requires CanTake(token, |stack|) && !token.Include? && !token.End?
    modifies nodes[|nodes| - 1]
    ensures after != [] && Linked(after, []) && rest == OpenBlocks(after) && rest[0] == nodes[0]
    ensures forall b :: b in OpenObjects(after) ==> b in OpenObjects(stack) || fresh(b)
    ensures forall b :: b in rest ==> b in nodes || fresh(b)
    ensures FramesOf(after) == Take(old(FramesOf(stack)), token)
    ensures SettingsOf(nodes[0]) == old(SettingsOf(nodes[0]))
  {
    hide Linked, OpenObjects, FramesOf, CloseTop, AddPart;
    var back := nodes[|nodes| - 1];
    match token {
      case BlockStart(name) =>
        var block;
        block, after := OpenBlock(back, name, stack);
        rest := nodes + [block];
      case BlockEnd =>
        PopKeeps(stack);
        rest, after := nodes[..|nodes| - 1], Popped(stack);
      case Var(name) =>
        after := AddFragment(back, PropertyFragment(name), VarPiece(name), stack);
        rest := nodes;
      case Text(text) =>
        after := AddFragment(back, TextFragment(text), TextPiece(text), stack);
        rest := nodes;
    }
  }

  lemma PassNothing(files: Files, rank: map<string, nat>, bound: nat, stack: seq<Frame>)
    requires Acyclic(files, rank) && stack != []
    ensures IncludesBelow(files, rank, bound, []) && Closes(Splice(files, rank, bound, []), |stack|)
    ensures Pass(stack, Splice(files, rank, bound, [])) == stack
  {
  }

  lemma PassAll(stack: seq<Frame>)
    requires stack != []
    ensures Closes([], |stack|) && Pass(stack, []) == stack
  {
  }

  lemma FlattenFile(files: Files, rank: map<string, nat>, name: string)
    requires Acyclic(files, rank)
    ensures name in files ==> name in rank && IncludesBelow(files, rank, rank[name], Tokens(files[name], 0))
    ensures name in files ==> Flatten(files, rank, name) == Splice(files, rank, rank[name], Tokens(files[name], 0))
    ensures name !in files ==> Flatten(files, rank, name) == []
  {
  }

  /**
   One round of the loader: a token that is no include is passed, an include is passed as the stream
   spliced in for it.
   */
  lemma PassNext(files: Files, rank: map<string, nat>, bound: nat, ts: seq<Token>, stack: seq<Frame>)
    requires Acyclic(files, rank) && IncludesBelow(files, rank, bound, ts) && ts != []
    requires stack != [] && Closes(Splice(files, rank, bound, ts), |stack|)
    ensures IncludesBelow(files, rank, bound, ts[1..])
    ensures ts[0].Include? && ts[0].name in files ==> ts[0].name in rank && rank[ts[0].name] < bound
    ensures var rest := Splice(files, rank, bound, ts[1..]);
      var first := if ts[0].Include? then Flatten(files, rank, ts[0].name) else [ts[0]];
      && Closes(first, |stack|) && Closes(rest, |Pass(stack, first)|)
      && Pass(stack, Splice(files, rank, bound, ts)) == Pass(Pass(stack, first), rest)
  {
    var first := if ts[0].Include? then Flatten(files, rank, ts[0].name) else [ts[0]];
    PassAppend(stack, first, Splice(files, rank, bound, ts[1..]));
  }

  lemma PassOne(stack: seq<Frame>, t: Token)
    requires stack != [] && Closes([t], |stack|)
    ensures CanTake(t, |stack|) && Pass(stack, [t]) == Take(stack, t)
  {
    assert [t][1..] == [];
  }

  /** template/NLTemplate.cpp `load_recursive`. */
  method LoadRecursive(files: Files, ghost rank: map<string, nat>, name: string, nodes: seq<Block>,
                       ghost stack: seq<Open>)
    returns (rest: seq<Block>, ghost after: seq<Open>)
    requires Acyclic(files, rank)
    requires stack != [] && Linked(stack, []) && nodes == OpenBlocks(stack)
    requires Closes(Flatten(files, rank, name), |stack|)
    modifies set b | b in nodes
    ensures after != [] && Linked(after, []) && rest == OpenBlocks(after) && rest[0] == nodes[0]
    ensures forall b :: b in OpenObjects(after) ==> b in OpenObjects(stack) || fresh(b)
    ensures forall b :: b in rest ==> b in nodes || fresh(b)
    ensures FramesOf(after) == Pass(old(FramesOf(stack)), Flatten(files, rank, name))
    ensures SettingsOf(nodes[0]) == old(SettingsOf(nodes[0]))
    decreases if name in files then rank[name] + 1 else 0
  {
    hide Linked, OpenObjects, FramesOf, Take, Tokens, IncludesBelow, Closes, Pass, Splice, Flatten, Acyclic;
    rest, after := nodes, stack;
    FlattenFile(files, rank, name);
    if name !in files {
      PassAll(FramesOf(stack));
      return;
    }
    OpenAllocated(stack);
    var bound: nat := rank[name];
    var tokenizer := new Tokenizer(files[name]);
    ghost var ts := tokenizer.Left();
    var done := false;
    while !done
      invariant fresh(tokenizer) && tokenizer.Valid() && (if done then ts == [] else ts == tokenizer.Left())
      invariant after != [] && Linked(after, []) && rest == OpenBlocks(after) && rest[0] == nodes[0]
      invariant forall b :: b in OpenObjects(after) ==> b in OpenObjects(stack) || fresh(b)
      invariant forall b :: b in rest ==> b in nodes || fresh(b)
      invariant IncludesBelow(files, rank, bound, ts) && Closes(Splice(files, rank, bound, ts), |after|)
      invariant Pass(FramesOf(after), Splice(files, rank, bound, ts))
        == Pass(old(FramesOf(stack)), Flatten(files, rank, name))
      invariant SettingsOf(nodes[0]) == old(SettingsOf(nodes[0]))
      decreases !done, |ts|
    {
      OpenAllocated(after);
      var token := tokenizer.Next();
      if token.End? {
        done := true;
      } else {
        PassNext(files, rank, bound, ts, FramesOf(after));
        if token.Include? {
          rest, after := LoadRecursive(files, rank, token.name, rest, after);
        } else {
          PassOne(FramesOf(after), token);
          rest, after := TakeToken(rest, token, after);
        }
        ts := ts[1..];
      }
    }
    PassNothing(files, rank, bound, FramesOf(after));
  }

  lemma RootOf(b: Block)
    requires b.fragments == []
    ensures Linked([Open(b, [])], []) && OpenBlocks([Open(b, [])]) == [b] && OpenObjects([Open(b, [])]) == {b}
    ensures FramesOf([Open(b, [])]) == [Frame(b.name, [])]
  {
    NoPieces();
    assert [Open(b, [])][..0] == [];
  }

  lemma OfRoot(root: Open)
    requires Linked([root], [])
    ensures IsOpen(root, []) && OpenObjects([root]) == TopObjects(root)
    ensures FramesOf([root]) == [Frame(root.block.name, ViewParts(root.parts))]
  {
    assert [root][..0] == [];
  }

  /** template/NLTemplate.cpp `load`: the template, as it was cleared, holds the tree of the flattened stream. */
  method Load(template: Block, files: Files, ghost rank: map<string, nat>, name: string) returns (ghost m: Layout)
    requires template.name == "main" && Acyclic(files, rank) && Closes(Flatten(files, rank, name), 1)
    modifies template
    ensures m.block == template && Valid(m) && fresh(Objects(m) - {template})
    ensures ViewOf(m) == View("main", [], old(template.enabled), old(template.resized),
                              LoadedParts(Flatten(files, rank, name)), [])
    ensures Pristine(m.parts) && Shape(m.parts) == LoadedParts(Flatten(files, rank, name))
  {
    hide Linked, OpenObjects, FramesOf, Pass, Root, Flatten, Acyclic, ValidParts, PartObjects, ViewParts, Valid,
      Objects, Pristine, Shape, IsNew;
    template.nodes := [];
    template.fragments := [];
    template.properties := [];
    RootOf(template);
    var rest;
    ghost var stack;
    rest, stack := LoadRecursive(files, rank, name, [template], [Open(template, [])]);
    ghost var root := Collapse(stack);
    OfRoot(root);
    NoCopies();
    m := Layout(template, root.parts, []);
    LoadedIsNew(Flatten(files, rank, name));
    NewIsPristine(root.parts);
    assert Fragments(root.parts) + [] == Fragments(root.parts);
    MakeLayout(m);
  }

  // ---------- rendering what was loaded, at any later time ----------

  /** No block inside is disabled or repeated at this time. */
  ghost predicate Pristine(ps: seq<Piece>)
    reads PartObjects(ps)
    decreases ps
  {
    ps == [] || (Pristine(ps[..|ps| - 1]) && PristinePiece(ps[|ps| - 1]))
  }

  ghost predicate PristinePiece(p: Piece)
    reads PieceObjects(p)
    decreases p
  {
    match p
    case BlockPiece(l) => PristineBlock(l)
    case _ => true
  }

  ghost predicate PristineBlock(l: Layout)
    reads Objects(l)
    decreases l
  {
    l.block.enabled && !l.block.resized && l.copies == [] && Pristine(l.parts)
  }

  /** The tree of a layout as far as it never changes: names and texts. */
  ghost function Shape(ps: seq<Piece>): seq<Part>
    decreases ps
  {
    if ps == [] then [] else Shape(ps[..|ps| - 1]) + [PieceShape(ps[|ps| - 1])]
  }

  ghost function PieceShape(p: Piece): Part
    decreases p
  {
    match p
    case TextPiece(text) => TextPart(text)
    case VarPiece(name) => VarPart(name)
    case BlockPiece(l) => BlockPart(View(l.block.name, [], true, false, Shape(l.parts), []))
  }

  lemma BareSnoc(ps: seq<Part>, p: Part)
    ensures Bare(ps + [p]) == Bare(ps) + [BarePart(p)]
  {
    TakeSnoc(ps, p);
  }

  lemma {:induction false} BareIsShape(ps: seq<Piece>)
    requires Pristine(ps)
    ensures Bare(ViewParts(ps)) == Shape(ps)
    decreases ps
  {
    if ps != [] {
      var front, p := ps[..|ps| - 1], ps[|ps| - 1];
      BareIsShape(front);
      BarePieceIsShape(p);
      BareSnoc(ViewParts(front), ViewPiece(p));
    }
  }

  lemma {:induction false} BarePieceIsShape(p: Piece)
    requires PristinePiece(p)
    ensures BarePart(ViewPiece(p)) == PieceShape(p)
    decreases p
  {
    if p.BlockPiece? { BareIsShape(p.layout.parts); }
  }

  lemma {:induction false} NewIsPristine(ps: seq<Piece>)
    requires IsNew(ViewParts(ps))
    ensures Pristine(ps) && Shape(ps) == ViewParts(ps)
    decreases ps
  {
    if ps != [] {
      NewSnoc(ViewParts(ps[..|ps| - 1]), ViewPiece(ps[|ps| - 1]));
      NewIsPristine(ps[..|ps| - 1]);
      NewPieceIsPristine(ps[|ps| - 1]);
    }
  }

  lemma {:induction false} NewPieceIsPristine(p: Piece)
    requires IsNewPart(ViewPiece(p))
    ensures PristinePiece(p) && PieceShape(p) == ViewPiece(p)
    decreases p
  {
    if p.BlockPiece? { NewBlockIsPristine(p.layout); }
  }

  lemma {:induction false} NewBlockIsPristine(l: Layout)
    requires IsNewPart(BlockPart(ViewOf(l)))
    ensures PristineBlock(l) && ViewOf(l) == View(l.block.name, [], true, false, Shape(l.parts), [])
    decreases l
  {
    NewIsPristine(l.parts);
  }

  /**
   A template that was loaded from a stream renders, at any later time at which none of its
   blocks is disabled or repeated, as the interpretation of that stream under the variables
   set by then.
   */
  lemma LoadedRendersStream(files: Files, rank: map<string, nat>, name: string, m: Layout)
    requires Acyclic(files, rank) && Closes(Flatten(files, rank, name), 1)
    requires Shape(m.parts) == LoadedParts(Flatten(files, rank, name)) && Pristine(m.parts)
    ensures RenderParts(ViewParts(m.parts), m.block.properties)
         == Interpret(Flatten(files, rank, name), [m.block.properties], Dictionaries(ViewParts(m.parts)))
  {
    FlattenIsFlat(files, rank, name);
    BareIsShape(m.parts);
    RenderingInterprets(Flatten(files, rank, name), ViewParts(m.parts), m.block.properties);
  }
}
