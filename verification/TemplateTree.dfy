/**
 Templates as values: what a block of template/NLTemplate.cpp holds, how it renders, the
 one pass of a stack machine that builds it from tokens, and the interpretation of a token
 stream that rendering agrees with.
 */
module TemplateTree {
  import opened Sequences
  import opened TemplateTokens

  // ---------- dictionaries ----------

  type Properties = seq<(string, string)>

  /** The value of a name, or the empty string. */
  function Find(ps: Properties, name: string): string {
    if ps == [] then "" else if ps[0].0 == name then ps[0].1 else Find(ps[1..], name)
  }

  /** The list after `Dictionary::set`: the first pair of the name takes the value, or a new pair goes to the end. */
  function Assign(ps: Properties, name: string, value: string): Properties {
    if ps == [] then [(name, value)]
    else if ps[0].0 == name then [(name, value)] + ps[1..]
    else [ps[0]] + Assign(ps[1..], name, value)
  }

  /** The pair at `k` is the first of the name. */
  ghost predicate IsFirst(ps: Properties, name: string, k: int) {
    0 <= k < |ps| && ps[k].0 == name && forall j :: 0 <= j < k ==> ps[j].0 != name
  }

  ghost predicate IsUnset(ps: Properties, name: string) {
    forall k :: 0 <= k < |ps| ==> ps[k].0 != name
  }

  /** The first pair of the name gives its value; a name without a pair gives the empty string. */
  lemma {:induction false} FindFirst(ps: Properties, name: string)
    ensures IsUnset(ps, name) ==> Find(ps, name) == ""
    ensures forall k :: IsFirst(ps, name, k) ==> Find(ps, name) == ps[k].1
    decreases |ps|
  {
    if ps != [] && ps[0].0 != name {
      FindFirst(ps[1..], name);
      forall k | IsFirst(ps, name, k) ensures Find(ps, name) == ps[k].1 { assert IsFirst(ps[1..], name, k - 1); }
    }
  }

  /** The first pair of the name is replaced where it stands; a name without a pair gets one at the end. */
  lemma {:induction false} AssignFirst(ps: Properties, name: string, value: string)
    ensures IsUnset(ps, name) ==> Assign(ps, name, value) == ps + [(name, value)]
    ensures forall k :: IsFirst(ps, name, k) ==> Assign(ps, name, value) == ps[k := (name, value)]
    decreases |ps|
  {
    if ps != [] && ps[0].0 != name {
      AssignFirst(ps[1..], name, value);
      assert ps == [ps[0]] + ps[1..];
      forall k | IsFirst(ps, name, k)
        ensures Assign(ps, name, value) == ps[k := (name, value)]
      {
        assert IsFirst(ps[1..], name, k - 1);
        assert ps[k := (name, value)] == [ps[0]] + ps[1..][k - 1 := (name, value)];
      }
    }
  }

  /** What is set is found, and nothing else changes. */
  lemma {:induction false} FindAssigned(ps: Properties, name: string, value: string, other: string)
    ensures Find(Assign(ps, name, value), other) == if other == name then value else Find(ps, other)
    decreases |ps|
  {
    if ps != [] && ps[0].0 != name {
      FindAssigned(ps[1..], name, value, other);
      assert ([ps[0]] + Assign(ps[1..], name, value))[1..] == Assign(ps[1..], name, value);
    } else if ps != [] {
      assert ([(name, value)] + ps[1..])[1..] == ps[1..];
    }
  }

  // ---------- blocks as values ----------

  datatype Part = TextPart(text: string) | VarPart(name: string) | BlockPart(view: View)

  datatype View = View(name: string, properties: Properties, enabled: bool, resized: bool, parts: seq<Part>,
    copies: seq<View>)

  function RenderBlock(v: View): string
    decreases v
  {
    if !v.enabled then ""
    else if v.resized then RenderCopies(v.copies)
    else RenderParts(v.parts, v.properties)
  }

  /** The parts of a node one behind the other; a variable is looked up in that node only. */
  function RenderParts(ps: seq<Part>, properties: Properties): string
    decreases ps
  {
    if ps == [] then "" else RenderParts(ps[..|ps| - 1], properties) + RenderPart(ps[|ps| - 1], properties)
  }

  function RenderPart(p: Part, properties: Properties): string
    decreases p
  {
    match p
    case TextPart(text) => text
    case VarPart(name) => Find(properties, name)
    case BlockPart(view) => RenderBlock(view)
  }

  function RenderCopies(vs: seq<View>): string
    decreases vs
  {
    if vs == [] then "" else RenderCopies(vs[..|vs| - 1]) + RenderBlock(vs[|vs| - 1])
  }

  // ---------- copies ----------

  /** What `Block::copy` makes: the same parts, but enabled and unrepeated at every depth. */
  function CopyOf(v: View): View
    decreases v
  {
    View(v.name, v.properties, true, false, CopyParts(v.parts), [])
  }

  function CopyParts(ps: seq<Part>): (r: seq<Part>)
    ensures |r| == |ps|
    decreases ps
  {
    if ps == [] then [] else CopyParts(ps[..|ps| - 1]) + [CopyPart(ps[|ps| - 1])]
  }

  function CopyPart(p: Part): Part
    decreases p
  {
    match p
    case BlockPart(view) => BlockPart(CopyOf(view))
    case _ => p
  }

  function Repeated(v: View, n: nat): View {
    v.(resized := true, copies := seq(n, _ => CopyOf(v)))
  }

  function Times(s: string, n: nat): string {
    if n == 0 then "" else Times(s, n - 1) + s
  }

  /** A repeated block renders as that many copies one behind the other, whatever it was before. */
  lemma {:induction false} RepeatedRenders(v: View, n: nat)
    ensures RenderBlock(Repeated(v, n)) == if v.enabled then Times(RenderBlock(CopyOf(v)), n) else ""
    decreases n
  {
    if n > 0 {
      var e := v.(enabled := true);
      RepeatedRenders(e, n - 1);
      var vs := Repeated(v, n).copies;
      assert vs[..n - 1] == Repeated(e, n - 1).copies;
    }
  }

  lemma CopiesSnoc(vs: seq<View>, w: View)
    ensures RenderCopies(vs + [w]) == RenderCopies(vs) + RenderBlock(w)
  {
    TakeSnoc(vs, w);
  }

  lemma {:induction false} CopiesAppend(a: seq<View>, b: seq<View>)
    ensures RenderCopies(a + b) == RenderCopies(a) + RenderCopies(b)
    decreases |b|
  {
    if b == [] {
      assert a + b == a;
    } else {
      var front, last := b[..|b| - 1], b[|b| - 1];
      CopiesAppend(a, front);
      CopiesSnoc(a + front, last);
      SnocLast(b);
      Associative(a, front, [last]);
      Associative(RenderCopies(a), RenderCopies(front), RenderBlock(last));
    }
  }

  /** Exchanging one copy exchanges its segment of the output and no other. */
  lemma OneSegmentChanges(v: View, i: nat, w: View)
    requires v.enabled && v.resized && i < |v.copies|
    ensures var before, behind := RenderCopies(v.copies[..i]), RenderCopies(v.copies[i + 1..]);
      && RenderBlock(v) == before + RenderBlock(v.copies[i]) + behind
      && RenderBlock(v.(copies := v.copies[i := w])) == before + RenderBlock(w) + behind
  {
    SegmentOf(v.copies, i);
    var ws := v.copies[i := w];
    SegmentOf(ws, i);
    assert ws[..i] == v.copies[..i] && ws[i + 1..] == v.copies[i + 1..];
  }

  lemma CopiesOne(w: View)
    ensures RenderCopies([w]) == RenderBlock(w)
  {
    assert [w][..0] == [];
  }

  lemma SegmentOf(vs: seq<View>, i: nat)
    requires i < |vs|
    ensures RenderCopies(vs) == RenderCopies(vs[..i]) + RenderBlock(vs[i]) + RenderCopies(vs[i + 1..])
  {
    hide RenderCopies, RenderBlock;
    SplitAt(vs, i);
    CopiesAppend(vs[..i] + [vs[i]], vs[i + 1..]);
    CopiesAppend(vs[..i], [vs[i]]);
    CopiesOne(vs[i]);
  }

  // ---------- building from tokens ----------

  /** An open block while a template is loaded. */
  datatype Frame = Frame(name: string, parts: seq<Part>)

  function NewView(f: Frame): View {
    View(f.name, [], true, false, f.parts, [])
  }

  function AddPart(stack: seq<Frame>, p: Part): seq<Frame>
    requires stack != []
  {
    var n := |stack| - 1;
    stack[..n] + [stack[n].(parts := stack[n].parts + [p])]
  }

  function CloseTop(stack: seq<Frame>): (r: seq<Frame>)
    requires |stack| > 1
    ensures |r| == |stack| - 1
  {
    AddPart(stack[..|stack| - 1], BlockPart(NewView(stack[|stack| - 1])))
  }

  predicate CanTake(t: Token, depth: nat) {
    t.BlockEnd? ==> depth > 1
  }

  function Take(stack: seq<Frame>, t: Token): (r: seq<Frame>)
    requires stack != [] && CanTake(t, |stack|)
    ensures |r| == Deepen(|stack|, t)
  {
    match t
    case Text(text) => AddPart(stack, TextPart(text))
    case Var(name) => AddPart(stack, VarPart(name))
    case BlockStart(name) => stack + [Frame(name, [])]
    case BlockEnd => CloseTop(stack)
    case _ => stack
  }

  function Deepen(depth: nat, t: Token): nat
    requires CanTake(t, depth)
  {
    if t.BlockStart? then depth + 1 else if t.BlockEnd? then depth - 1 else depth
  }

  /** No block is closed but those opened before, with `depth - 1` of them open at first. */
  predicate Closes(ts: seq<Token>, depth: nat) {
    ts == [] || (CanTake(ts[0], depth) && Closes(ts[1..], Deepen(depth, ts[0])))
  }

  /** The one pass over a token stream. */
  function Pass(stack: seq<Frame>, ts: seq<Token>): (r: seq<Frame>)
    requires stack != [] && Closes(ts, |stack|)
    ensures r != []
    decreases |ts|
  {
    if ts == [] then stack else Pass(Take(stack, ts[0]), ts[1..])
  }

  /** What the root holds when every open block ends here. */
  function Root(stack: seq<Frame>): Frame
    requires stack != []
    decreases |stack|
  {
    if |stack| == 1 then stack[0] else Root(CloseTop(stack))
  }

  const START := [Frame("main", [])]

  function LoadedParts(ts: seq<Token>): seq<Part>
    requires Closes(ts, 1)
  {
    Root(Pass(START, ts)).parts
  }

  lemma {:induction false} PassAppend(stack: seq<Frame>, a: seq<Token>, b: seq<Token>)
    requires stack != []
    requires Closes(a + b, |stack|)
    ensures Closes(a, |stack|) && Closes(b, |Pass(stack, a)|)
    ensures Pass(stack, a + b) == Pass(Pass(stack, a), b)
    decreases |a|
  {
    if a == [] {
      assert a + b == b;
    } else {
      assert (a + b)[1..] == a[1..] + b;
      PassAppend(Take(stack, a[0]), a[1..], b);
    }
  }

  // ---------- trees back into tokens ----------

  function Unparse(ps: seq<Part>): seq<Token>
    decreases ps
  {
    if ps == [] then [] else Unparse(ps[..|ps| - 1]) + UnparsePart(ps[|ps| - 1])
  }

  function UnparsePart(p: Part): seq<Token>
    decreases p
  {
    match p
    case TextPart(text) => [Text(text)]
    case VarPart(name) => [Var(name)]
    case BlockPart(view) => [BlockStart(view.name)] + Unparse(view.parts) + [BlockEnd]
  }

  function UnparseStack(stack: seq<Frame>): seq<Token> {
    if stack == [] then []
    else
      var n := |stack| - 1;
      UnparseStack(stack[..n]) + (if n > 0 then [BlockStart(stack[n].name)] else []) + Unparse(stack[n].parts)
  }

  function Ends(n: nat): seq<Token> {
    seq(n, _ => BlockEnd)
  }

  lemma UnparseSnoc(ps: seq<Part>, p: Part)
    ensures Unparse(ps + [p]) == Unparse(ps) + UnparsePart(p)
  {
    assert (ps + [p])[..|ps|] == ps;
  }

  lemma UnparseAdd(stack: seq<Frame>, p: Part)
    requires stack != []
    ensures UnparseStack(AddPart(stack, p)) == UnparseStack(stack) + UnparsePart(p)
  {
    var n := |stack| - 1;
    UnparseSnoc(stack[n].parts, p);
    assert AddPart(stack, p)[..n] == stack[..n];
  }

  lemma UnparseTop(stack: seq<Frame>)
    requires |stack| > 1
    ensures var n := |stack| - 1;
      UnparseStack(stack) == UnparseStack(stack[..n]) + ([BlockStart(stack[n].name)] + Unparse(stack[n].parts))
  {
    var n := |stack| - 1;
    Associative(UnparseStack(stack[..n]), [BlockStart(stack[n].name)], Unparse(stack[n].parts));
  }

  lemma UnparseClose(stack: seq<Frame>)
    requires |stack| > 1
    ensures UnparseStack(CloseTop(stack)) == UnparseStack(stack) + [BlockEnd]
  {
    hide UnparseStack, Unparse;
    var n := |stack| - 1;
    var top := NewView(stack[n]);
    UnparseAdd(stack[..n], BlockPart(top));
    UnparseTop(stack);
    Associative(UnparseStack(stack[..n]), [BlockStart(top.name)] + Unparse(top.parts), [BlockEnd]);
  }

  lemma UnparseOpen(stack: seq<Frame>, name: string)
    requires stack != []
    ensures UnparseStack(stack + [Frame(name, [])]) == UnparseStack(stack) + [BlockStart(name)]
  {
    assert (stack + [Frame(name, [])])[..|stack|] == stack;
  }

  lemma UnparseTake(stack: seq<Frame>, t: Token)
    requires stack != [] && CanTake(t, |stack|) && !t.Include? && !t.End?
    ensures UnparseStack(Take(stack, t)) == UnparseStack(stack) + [t]
  {
    hide UnparseStack, Unparse, AddPart, CloseTop;
    match t
    case Text(text) => UnparseAdd(stack, TextPart(text));
    case Var(name) => UnparseAdd(stack, VarPart(name));
    case BlockStart(name) => UnparseOpen(stack, name);
    case BlockEnd => UnparseClose(stack);
  }

  ghost predicate IsFlat(ts: seq<Token>) {
    forall k :: 0 <= k < |ts| ==> !ts[k].Include? && !ts[k].End?
  }

  lemma {:induction false} UnparsePass(stack: seq<Frame>, ts: seq<Token>)
    requires stack != [] && Closes(ts, |stack|) && IsFlat(ts)
    ensures UnparseStack(Pass(stack, ts)) == UnparseStack(stack) + ts
    decreases |ts|
  {
    hide UnparseStack;
    if ts != [] {
      UnparseTake(stack, ts[0]);
      UnparsePass(Take(stack, ts[0]), ts[1..]);
      assert [ts[0]] + ts[1..] == ts;
    }
  }

  lemma UnparseOne(f: Frame)
    ensures UnparseStack([f]) == Unparse(f.parts)
  {
    assert [f][..0] == [];
  }

  lemma {:induction false} UnparseRoot(stack: seq<Frame>)
    requires stack != []
    ensures Unparse(Root(stack).parts) == UnparseStack(stack) + Ends(|stack| - 1)
    decreases |stack|
  {
    hide UnparseStack, Unparse;
    if |stack| == 1 {
      UnparseOne(stack[0]);
      assert stack == [stack[0]];
    } else {
      UnparseClose(stack);
      UnparseRoot(CloseTop(stack));
      assert [BlockEnd] + Ends(|stack| - 2) == Ends(|stack| - 1);
    }
  }

  /** The tree built from a stream spells that stream, with the missing ends of blocks added. */
  lemma LoadedSpellsStream(ts: seq<Token>)
    requires Closes(ts, 1) && IsFlat(ts)
    ensures Unparse(LoadedParts(ts)) == ts + Ends(|Pass(START, ts)| - 1)
  {
    hide UnparseStack, Pass, Root;
    PassDepth(START, ts);
    UnparsePass(START, ts);
    UnparseRoot(Pass(START, ts));
    UnparseOne(START[0]);
    assert [] + ts == ts;
  }

  lemma PassDepth(stack: seq<Frame>, ts: seq<Token>)
    requires stack != [] && Closes(ts, |stack|)
    ensures Pass(stack, ts) != []
  {
  }

  // ---------- rendering is interpreting the stream ----------

  /**
   The output of a stream: texts are copied, a variable is looked up in the dictionary of
   the innermost open block and tags of blocks leave nothing. The dictionaries of the blocks
   still to be opened come in the order in which they are opened.
   */
  function Interpret(ts: seq<Token>, open: seq<Properties>, pending: seq<Properties>): string
    requires open != []
    decreases |ts|
  {
    if ts == [] then ""
    else
      match ts[0]
      case Text(text) => text + Interpret(ts[1..], open, pending)
      case Var(name) => Find(open[|open| - 1], name) + Interpret(ts[1..], open, pending)
      case BlockStart(_) =>
        if pending == [] then Interpret(ts[1..], open + [[]], [])
          else Interpret(ts[1..], open + [pending[0]], pending[1..])
      case BlockEnd => Interpret(ts[1..], if |open| > 1 then open[..|open| - 1] else open, pending)
      case _ => Interpret(ts[1..], open, pending)
  }

  /** The dictionaries of the blocks inside, in the order in which the blocks are opened. */
  function Dictionaries(ps: seq<Part>): seq<Properties>
    decreases ps
  {
    if ps == [] then [] else Dictionaries(ps[..|ps| - 1]) + PartDictionaries(ps[|ps| - 1])
  }

  function PartDictionaries(p: Part): seq<Properties>
    decreases p
  {
    match p
    case BlockPart(view) => [view.properties] + Dictionaries(view.parts)
    case _ => []
  }

  /** No block inside is disabled or repeated. */
  predicate IsPlain(ps: seq<Part>)
    decreases ps
  {
    ps == [] || (IsPlain(ps[..|ps| - 1]) && IsPlainPart(ps[|ps| - 1]))
  }

  predicate IsPlainPart(p: Part)
    decreases p
  {
    match p
    case BlockPart(view) => view.enabled && !view.resized && IsPlain(view.parts)
    case _ => true
  }

  lemma {:induction false} InterpretParts(ps: seq<Part>, open: seq<Properties>, rest: seq<Token>,
                                          pending: seq<Properties>)
    requires open != [] && IsPlain(ps)
    ensures Interpret(Unparse(ps) + rest, open, Dictionaries(ps) + pending)
         == RenderParts(ps, open[|open| - 1]) + Interpret(rest, open, pending)
    decreases ps
  {
    hide Interpret;
    if ps == [] {
      assert [] + rest == rest && [] + pending == pending;
    } else {
      var front, p := ps[..|ps| - 1], ps[|ps| - 1];
      InterpretParts(front, open, UnparsePart(p) + rest, PartDictionaries(p) + pending);
      InterpretPart(p, open, rest, pending);
      Associative(RenderParts(front, open[|open| - 1]), RenderPart(p, open[|open| - 1]),
                  Interpret(rest, open, pending));
      Associative(Unparse(front), UnparsePart(p), rest);
      Associative(Dictionaries(front), PartDictionaries(p), pending);
    }
  }

  lemma {:induction false} InterpretPart(p: Part, open: seq<Properties>, rest: seq<Token>, pending: seq<Properties>)
    requires open != [] && IsPlainPart(p)
    ensures Interpret(UnparsePart(p) + rest, open, PartDictionaries(p) + pending)
         == RenderPart(p, open[|open| - 1]) + Interpret(rest, open, pending)
    decreases p
  {
    var ts, ds := UnparsePart(p) + rest, PartDictionaries(p) + pending;
    match p
    case BlockPart(view) =>
      var inner := Unparse(view.parts) + ([BlockEnd] + rest);
      assert ts[0] == BlockStart(view.name) && ts[1..] == inner;
      assert ds[0] == view.properties && ds[1..] == Dictionaries(view.parts) + pending;
      InterpretParts(view.parts, open + [view.properties], [BlockEnd] + rest, pending);
      assert ([BlockEnd] + rest)[1..] == rest;
      assert (open + [view.properties])[..|open|] == open;
    case _ =>
      assert ts[1..] == rest && ds == pending;
  }

  lemma {:induction false} EndsAreSilent(ts: seq<Token>, n: nat, open: seq<Properties>, pending: seq<Properties>)
    requires open != []
    ensures Interpret(ts + Ends(n), open, pending) == Interpret(ts, open, pending)
    decreases |ts| + n
  {
    var all := ts + Ends(n);
    if ts == [] && n > 0 {
      assert all[1..] == [] + Ends(n - 1);
      EndsAreSilent([], n - 1, if |open| > 1 then open[..|open| - 1] else open, pending);
    } else if ts != [] {
      assert all[1..] == ts[1..] + Ends(n);
      var inside := if ts[0].BlockStart? then open + [if pending == [] then [] else pending[0]]
                    else if ts[0].BlockEnd? && |open| > 1 then open[..|open| - 1] else open;
      var left := if ts[0].BlockStart? && pending != [] then pending[1..] else pending;
      EndsAreSilent(ts[1..], n, inside, left);
    }
  }

  /** The same tree without the variables set in it. */
  function Bare(ps: seq<Part>): seq<Part>
    decreases ps
  {
    if ps == [] then [] else Bare(ps[..|ps| - 1]) + [BarePart(ps[|ps| - 1])]
  }

  function BarePart(p: Part): Part
    decreases p
  {
    match p
    case BlockPart(view) => BlockPart(view.(properties := [], parts := Bare(view.parts)))
    case _ => p
  }

  lemma {:induction false} BareParts(ps: seq<Part>)
    ensures Unparse(Bare(ps)) == Unparse(ps) && IsPlain(Bare(ps)) == IsPlain(ps)
    decreases ps
  {
    if ps != [] {
      var front, p := ps[..|ps| - 1], ps[|ps| - 1];
      BareParts(front);
      BarePartOnly(p);
      UnparseSnoc(Bare(front), BarePart(p));
      PlainSnoc(Bare(front), BarePart(p));
    }
  }

  lemma {:induction false} BarePartOnly(p: Part)
    ensures UnparsePart(BarePart(p)) == UnparsePart(p) && IsPlainPart(BarePart(p)) == IsPlainPart(p)
    decreases p
  {
    if p.BlockPart? { BareParts(p.view.parts); }
  }

  lemma PlainSnoc(ps: seq<Part>, p: Part)
    ensures IsPlain(ps + [p]) <==> IsPlain(ps) && IsPlainPart(p)
  {
    assert (ps + [p])[..|ps|] == ps;
  }

  /** Every block inside is as it was made: no variables, enabled, not repeated. */
  predicate IsNew(ps: seq<Part>)
    decreases ps
  {
    ps == [] || (IsNew(ps[..|ps| - 1]) && IsNewPart(ps[|ps| - 1]))
  }

  predicate IsNewPart(p: Part)
    decreases p
  {
    match p
    case BlockPart(view) =>
      view.properties == [] && view.enabled && !view.resized && view.copies == [] && IsNew(view.parts)
    case _ => true
  }

  lemma NewSnoc(ps: seq<Part>, p: Part)
    ensures IsNew(ps + [p]) <==> IsNew(ps) && IsNewPart(p)
  {
    TakeSnoc(ps, p);
  }

  lemma {:induction false} NewIsPlain(ps: seq<Part>)
    requires IsNew(ps)
    ensures IsPlain(ps)
    decreases ps
  {
    if ps != [] {
      NewIsPlain(ps[..|ps| - 1]);
      NewPartIsPlain(ps[|ps| - 1]);
    }
  }

  lemma {:induction false} NewPartIsPlain(p: Part)
    requires IsNewPart(p)
    ensures IsPlainPart(p)
    decreases p
  {
    if p.BlockPart? { NewIsPlain(p.view.parts); }
  }

  ghost predicate NewStack(stack: seq<Frame>) {
    forall k :: 0 <= k < |stack| ==> IsNew(stack[k].parts)
  }

  lemma NewAdd(stack: seq<Frame>, p: Part)
    requires stack != [] && NewStack(stack) && IsNewPart(p)
    ensures NewStack(AddPart(stack, p))
  {
    NewSnoc(stack[|stack| - 1].parts, p);
  }

  lemma NewTake(stack: seq<Frame>, t: Token)
    requires stack != [] && CanTake(t, |stack|) && NewStack(stack)
    ensures NewStack(Take(stack, t))
  {
    hide AddPart;
    var n := |stack| - 1;
    match t
    case Text(text) => NewAdd(stack, TextPart(text));
    case Var(name) => NewAdd(stack, VarPart(name));
    case BlockEnd => NewAdd(stack[..n], BlockPart(NewView(stack[n])));
    case _ =>
  }

  lemma {:induction false} NewPass(stack: seq<Frame>, ts: seq<Token>)
    requires stack != [] && Closes(ts, |stack|) && NewStack(stack)
    ensures NewStack(Pass(stack, ts))
    decreases |ts|
  {
    if ts != [] {
      NewTake(stack, ts[0]);
      NewPass(Take(stack, ts[0]), ts[1..]);
    }
  }

  lemma {:induction false} NewRoot(stack: seq<Frame>)
    requires stack != [] && NewStack(stack)
    ensures IsNew(Root(stack).parts)
    decreases |stack|
  {
    if |stack| > 1 {
      NewTake(stack, BlockEnd);
      NewRoot(CloseTop(stack));
    }
  }

  lemma LoadedIsNew(ts: seq<Token>)
    requires Closes(ts, 1)
    ensures IsNew(LoadedParts(ts))
  {
    NewPass(START, ts);
    NewRoot(Pass(START, ts));
  }

  /**
   A loaded template, with whatever variables set in whatever of its blocks, renders as the
   interpretation of the stream it was loaded from under the dictionaries of its blocks.
   */
  lemma RenderingInterprets(ts: seq<Token>, parts: seq<Part>, properties: Properties)
    requires Closes(ts, 1) && IsFlat(ts) && Bare(parts) == LoadedParts(ts)
    ensures RenderParts(parts, properties) == Interpret(ts, [properties], Dictionaries(parts))
  {
    LoadedIsNew(ts);
    NewIsPlain(LoadedParts(ts));
    BareParts(parts);
    LoadedSpellsStream(ts);
    InterpretParts(parts, [properties], [], []);
    assert Unparse(parts) + [] == Unparse(parts) && Dictionaries(parts) + [] == Dictionaries(parts);
    EndsAreSilent(ts, |Pass(START, ts)| - 1, [properties], Dictionaries(parts));
  }

  /** So does each copy of a block, whether or not the block or any inside it is disabled or repeated. */
  lemma CopyInterprets(v: View)
    ensures RenderBlock(CopyOf(v)) == Interpret(Unparse(v.parts), [v.properties], Dictionaries(v.parts))
  {
    CopiedParts(v.parts);
    InterpretParts(CopyParts(v.parts), [v.properties], [], []);
    assert Unparse(v.parts) + [] == Unparse(v.parts) && Dictionaries(v.parts) + [] == Dictionaries(v.parts);
  }

  ghost predicate SameButPlain(ps: seq<Part>, copies: seq<Part>) {
    Unparse(copies) == Unparse(ps) && Dictionaries(copies) == Dictionaries(ps) && IsPlain(copies)
  }

  lemma {:induction false} CopiedParts(ps: seq<Part>)
    ensures SameButPlain(ps, CopyParts(ps))
    decreases ps
  {
    if ps != [] {
      var front, p := ps[..|ps| - 1], ps[|ps| - 1];
      CopiedParts(front);
      CopiedPart(p);
      UnparseSnoc(CopyParts(front), CopyPart(p));
      PlainSnoc(CopyParts(front), CopyPart(p));
      DictionariesSnoc(CopyParts(front), CopyPart(p));
    }
  }

  lemma DictionariesSnoc(ps: seq<Part>, p: Part)
    ensures Dictionaries(ps + [p]) == Dictionaries(ps) + PartDictionaries(p)
  {
    assert (ps + [p])[..|ps|] == ps;
  }

  lemma {:induction false} CopiedPart(p: Part)
    ensures UnparsePart(CopyPart(p)) == UnparsePart(p) && PartDictionaries(CopyPart(p)) == PartDictionaries(p)
    ensures IsPlainPart(CopyPart(p))
    decreases p
  {
    if p.BlockPart? { CopiedParts(p.view.parts); }
  }
}
