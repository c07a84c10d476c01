/**
 Which unfinished documents can still be finished. What is open is closed by a value for the
 pending key and one bracket for each container, unless a container was opened where a key
 was due: `jsonParse` only notices that when the container closes.
 */
module JsonCompletion {
  import opened Options
  import opened Texts
  import opened JsonMachine
  import opened JsonGrammar
  import opened JsonComplete
  import opened JsonSound
  import opened JsonOpen
  import opened Sequences
  import JsonNumber
  import JsonString

  // ---------- what is spelled stays spelled when the text goes on ----------

  lemma OccursExtends(text: string, u: string, i: nat, p: string)
    requires text <= u && Occurs(text, i, p)
    ensures Occurs(u, i, p)
  {
  }

  lemma MarkExtends(text: string, u: string, i: nat, mark: Option<string>, c: char)
    requires text <= u && MarkAt(text, i, mark, c)
    ensures MarkAt(u, i, mark, c)
  {
    OccursExtends(text, u, i, PrintMark(mark, c));
  }

  lemma EndExtends(text: string, u: string, i: nat, ws: string, c: char)
    requires text <= u && EndAt(text, i, ws, c) && c != '\0'
    ensures EndAt(u, i, ws, c)
  {
    OccursExtends(text, u, i, ws);
  }

  lemma StringExtends(text: string, u: string, i: nat, body: seq<JsonString.Piece>)
    requires text <= u && StringAt(text, i, body) && i + |PrintString(body)| < |text|
    ensures StringAt(u, i, body)
  {
    hide Occurs;
    OccursExtends(text, u, i + 1, JsonString.SpellPieces(body));
  }

  lemma ScalarExtends(text: string, u: string, i: nat, c: Cst)
    requires text <= u && SpelledAt(text, i, c) && IsScalar(c) && i + |Print(c)| < |text|
    ensures SpelledAt(u, i, c)
  {
    hide Occurs, StringAt, PrintString, JsonString.SpellPieces, JsonNumber.Spell, LiteralOk;
    match c
    case Num(l) => OccursExtends(text, u, i, JsonNumber.Spell(l));
    case Str(body) => StringExtends(text, u, i, body);
    case Word(w) => OccursExtends(text, u, i, w);
    case _ =>
  }

  lemma {:induction false} SpelledExtends(text: string, u: string, i: nat, c: Cst)
    requires text <= u && SpelledAt(text, i, c) && i + |Print(c)| < |text|
    ensures SpelledAt(u, i, c)
    decreases c
  {
    hide Occurs, PrintItems, PrintEntries, EndAt;
    if c.Arr? {
      ItemsExtend(text, u, i + 1, c.items);
      EndExtends(text, u, i + 1 + |PrintItems(c.items)|, c.end, ']');
    } else if c.Obj? {
      EntriesExtend(text, u, i + 1, c.entries);
      EndExtends(text, u, i + 1 + |PrintEntries(c.entries)|, c.end, '}');
    } else {
      ScalarExtends(text, u, i, c);
    }
  }

  lemma {:induction false} ItemsExtend(text: string, u: string, i: nat, xs: Items)
    requires text <= u && ItemsAt(text, i, xs) && i + |PrintItems(xs)| < |text|
    ensures ItemsAt(u, i, xs)
    decreases xs
  {
    hide Occurs, ItemsAt, SpelledAt, MarkAt, Print, PrintItems, PrintMark, AllSpace;
    if xs.NoItems? {
      NothingAt(u, i);
    } else {
      var n := i + |xs.ws| + |Print(xs.item)|;
      ItemsCons(text, i, xs.ws, xs.item, xs.comma, xs.more);
      ItemsCons(u, i, xs.ws, xs.item, xs.comma, xs.more);
      OccursExtends(text, u, i, xs.ws);
      SpelledExtends(text, u, i + |xs.ws|, xs.item);
      MarkExtends(text, u, n, xs.comma, ',');
      ItemsExtend(text, u, n + |PrintMark(xs.comma, ',')|, xs.more);
    }
  }

  lemma {:induction false} EntriesExtend(text: string, u: string, i: nat, xs: Entries)
    requires text <= u && EntriesAt(text, i, xs) && i + |PrintEntries(xs)| < |text|
    ensures EntriesAt(u, i, xs)
    decreases xs
  {
    hide Occurs, EntriesAt, SpelledAt, StringAt, MarkAt, Print, PrintEntries, PrintString, PrintMark, AllSpace;
    if xs.NoEntries? {
      NothingAt(u, i);
    } else {
      var n := i + |xs.ws| + |PrintString(xs.key)|;
      var g := n + |PrintMark(xs.colon, ':')|;
      var e := g + |xs.gap| + |Print(xs.item)|;
      EntriesCons(text, i, xs);
      EntriesCons(u, i, xs);
      OccursExtends(text, u, i, xs.ws);
      StringExtends(text, u, i + |xs.ws|, xs.key);
      MarkExtends(text, u, n, xs.colon, ':');
      OccursExtends(text, u, g, xs.gap);
      SpelledExtends(text, u, g + |xs.gap|, xs.item);
      MarkExtends(text, u, e, xs.comma, ',');
      EntriesExtend(text, u, e + |PrintMark(xs.comma, ',')|, xs.more);
    }
  }

  lemma PendingExtends(text: string, u: string, i: nat, p: Option<Pending>)
    requires text <= u && PendingAt(text, i, p) && i + |PrintPending(p)| < |text|
    ensures PendingAt(u, i, p)
  {
    hide Occurs, SpelledAt, MarkAt, Print, PrintMark, AllSpace, SpaceBetween;
    if p.Some? {
      var q := p.value;
      OccursExtends(text, u, i, q.ws);
      SpelledExtends(text, u, i + |q.ws|, q.key);
      MarkExtends(text, u, i + |q.ws| + |Print(q.key)|, q.colon, ':');
    }
  }

  lemma PartIs(text: string, i: nat, p: Part)
    ensures var body := i + |p.ws| + 1;
      PartAt(text, i, p) <==>
        && Occurs(text, i, p.ws) && AllSpace(p.ws) && At(text, i + |p.ws|) == (if p.OpenObj? then '{' else '[')
        && (p.OpenArr? ==> ItemsAt(text, body, p.items))
        && (p.OpenObj? ==>
              EntriesAt(text, body, p.entries) && PendingAt(text, body + |PrintEntries(p.entries)|, p.pending))
    ensures |PrintPart(p)| == |p.ws| + 1 + if p.OpenArr? then |PrintItems(p.items)|
                                          else |PrintEntries(p.entries)| + |PrintPending(p.pending)|
  {
    hide Occurs, ItemsAt, EntriesAt, PendingAt, PrintItems, PrintEntries, PrintPending, AllSpace;
  }

  lemma PartExtends(text: string, u: string, i: nat, p: Part)
    requires text <= u && PartAt(text, i, p) && i + |PrintPart(p)| < |text|
    ensures PartAt(u, i, p)
  {
    hide Occurs, ItemsAt, EntriesAt, PendingAt, PrintItems, PrintEntries, PrintPending, AllSpace, PartAt, PrintPart;
    PartIs(text, i, p);
    PartIs(u, i, p);
    OccursExtends(text, u, i, p.ws);
    var body := i + |p.ws| + 1;
    if p.OpenArr? {
      ItemsExtend(text, u, body, p.items);
    } else {
      EntriesExtend(text, u, body, p.entries);
      PendingExtends(text, u, body + |PrintEntries(p.entries)|, p.pending);
    }
  }

  /** Open containers stay open where they are when the text goes on behind white space. */
  lemma {:induction false} PartsExtend(text: string, u: string, ps: seq<Part>)
    requires text <= u && PartsAt(text, ps) && PartsEnd(ps) < |text|
    ensures PartsAt(u, ps)
    decreases |ps|
  {
    hide PartAt, PrintPart, Room;
    if ps != [] {
      var before, p := ps[..|ps| - 1], ps[|ps| - 1];
      PartsExtend(text, u, before);
      PartExtends(text, u, PartsEnd(before), p);
    }
  }

  // ---------- closing what is open ----------

  function Closer(isObject: bool): char {
    if isObject then '}' else ']'
  }

  /** The closing brackets of the open containers, the innermost one's first. */
  function Closers(ps: seq<Part>): string {
    if ps == [] then "" else [Closer(ps[|ps| - 1].OpenObj?)] + Closers(ps[..|ps| - 1])
  }

  ghost predicate SameKinds(ps: seq<Part>, stack: seq<Frame>) {
    |ps| == |stack| && forall k :: 0 <= k < |ps| ==> ps[k].OpenObj? == stack[k].InObject?
  }

  /** The innermost container may close, and each one around it may take a value. */
  ghost predicate MayClose(stack: seq<Frame>) {
    && stack != [] && !KeyPending(stack)
    && forall k :: 0 <= k < |stack| - 1 ==> stack[k].InObject? ==> stack[k].key.Some?
  }

  /** A value joins the innermost of the containers that may take one. */
  lemma TakesValue(stack: seq<Frame>, v: Value, next: nat, last: nat) returns (g: Frame)
    requires stack != [] && forall k :: 0 <= k < |stack| ==> stack[k].InObject? ==> stack[k].key.Some?
    ensures Deliver(stack, v, next, last) == Running(State(next, last, stack[..|stack| - 1] + [g], false))
    ensures g.InObject? == Top(stack).InObject? && MayClose(stack[..|stack| - 1] + [g])
  {
    g := Top(Join(stack, v).value);
  }

  lemma {:induction false} RunClosers(u: string, st: State, ws: string, ps: seq<Part>)
    requires st.at <= |u| && SameKinds(ps, st.stack) && MayClose(st.stack)
    requires Occurs(u, st.at, ws) && AllSpace(ws) && Occurs(u, st.at + |ws|, Closers(ps))
    ensures Run(u, st).status == Ok
    decreases |ps|
  {
    hide Run, Continue, Deliver, Occurs, AllSpace;
    var base, f := st.stack[..|st.stack| - 1], Top(st.stack);
    var j := st.at + |ws|;
    SnocLast(st.stack);
    ClosersFirst(u, j, ps);
    RunClose(u, st, ws, base, f);
    if base == [] {
      DeliversLast(u, Finished(f), j + 1, j);
    } else {
      var g := TakesValue(base, Finished(f), j + 1, j);
      var st1 := State(j + 1, j, base[..|base| - 1] + [g], false);
      RunsOn(u, st1);
      NothingOccurs(u, j + 1);
      RunClosers(u, st1, "", ps[..|ps| - 1]);
    }
  }

  lemma ClosersFirst(u: string, j: nat, ps: seq<Part>)
    requires ps != [] && Occurs(u, j, Closers(ps))
    ensures j < |u| && At(u, j) == Closer(ps[|ps| - 1].OpenObj?) && Occurs(u, j + 1, Closers(ps[..|ps| - 1]))
  {
    hide Occurs, Closers;
    ClosersCons(ps);
    var c := [Closer(ps[|ps| - 1].OpenObj?)];
    OccursConcat(u, j, c, Closers(ps[..|ps| - 1]));
    OccursAt(u, j, c, 0);
  }

  lemma ClosersCons(ps: seq<Part>)
    requires ps != []
    ensures Closers(ps) == [Closer(ps[|ps| - 1].OpenObj?)] + Closers(ps[..|ps| - 1])
  {
  }

  lemma NothingOccurs(u: string, i: nat)
    requires i <= |u|
    ensures Occurs(u, i, "") && AllSpace("") && i + |""| == i
  {
  }

  lemma DeliversLast(u: string, v: Value, next: nat, last: nat)
    requires next <= |u|
    ensures Continue(u, Deliver([], v, next, last)).status == Ok
  {
  }

  // ---------- a container where a key is due ----------

  /** A container is open in an object that waits for a key. */
  ghost predicate IsDoomed(stack: seq<Frame>, k: nat) {
    k < |stack| - 1 && stack[k].InObject? && stack[k].key.None?
  }

  lemma DoomedDelivery(stack: seq<Frame>, v: Value, next: nat, last: nat, k: nat)
    requires k < |stack| && stack[k].InObject? && stack[k].key.None? && (k == |stack| - 1 ==> !v.String?)
    ensures var r := Deliver(stack, v, next, last);
      if r.Running? then |r.state.stack| == |stack| && IsDoomed(r.state.stack, k) else r.status != Ok
  {
  }

  lemma DoomedRound(text: string, j: nat, stack: seq<Frame>, separator: bool, k: nat)
    requires j < |text| && IsDoomed(stack, k)
    ensures var r := StepToken(text, j, stack, separator);
      if r.Running? then IsDoomed(r.state.stack, k) else r.status != Ok
  {
    hide Deliver, LexNumber, LexString, LexWord;
    LexStatus(text, j);
    match Lex(text, j)
    case Scalar(v, next) => DoomedDelivery(stack, v, next, j, k);
    case Close(isObject) =>
      if CloseStatus(stack, isObject) == Ok {
        DoomedDelivery(stack[..|stack| - 1], Finished(Top(stack)), j + 1, j, k);
      }
    case _ =>
  }

  /** Such a run cannot succeed. */
  lemma {:induction false} DoomedRun(text: string, st: State, k: nat)
    requires st.at <= |text| && IsDoomed(st.stack, k)
    ensures Run(text, st).status != Ok
    decreases |text| - st.at
  {
    hide StepToken, IsDoomed;
    if st.at < |text| {
      var j := SkipSpace(text, st.at);
      RunRound(text, st, j);
      if j < |text| {
        DoomedRound(text, j, st.stack, st.separator, k);
        var r := StepToken(text, j, st.stack, st.separator);
        if r.Running? { DoomedRun(text, r.state, k); }
      }
    }
  }

  // ---------- which unfinished documents can be finished ----------

  /** Something put behind the text makes it begin with a document. */
  ghost predicate IsCompletable(text: string) {
    exists v, i, c :: Accepts(text + v, i, c)
  }

  lemma CompletableByRun(text: string)
    ensures IsCompletable(text) <==> exists v :: Parse(text + v).status == Ok
  {
    hide Accepts, Parse;
    if IsCompletable(text) {
      var v, i, c :| Accepts(text + v, i, c);
      LanguageIsExact(text + v);
      assert Parse(text + v).status == Ok;
    }
    forall v | Parse(text + v).status == Ok ensures IsCompletable(text) {
      LanguageIsExact(text + v);
      var i, c :| Accepts(text + v, i, c);
    }
  }

  /** What finishes a document: a value if one is due, and a bracket for each open container. */
  function Completion(ps: seq<Part>): string {
    (if ps == [] || PendingIn(ps[|ps| - 1]) then "null" else "") + Closers(ps)
  }

  predicate PendingIn(p: Part) {
    p.OpenObj? && p.pending.Some?
  }

  lemma NullSpelled(u: string, i: nat, rest: seq<Part>)
    requires Occurs(u, i, "null" + Closers(rest)) && |u| == i + 4 + |Closers(rest)|
    ensures SpelledAt(u, i, Word("null")) && IsScalar(Word("null")) && |Print(Word("null"))| == 4
    ensures WellFormed(Word("null")) && Meaning(Word("null")) == Null && Occurs(u, i + 4, Closers(rest))
  {
    hide Occurs;
    OccursConcat(u, i, "null", Closers(rest));
    if rest != [] { ClosersFirst(u, i + 4, rest); }
  }

  /** Behind white space the completion is read to the end of the document. */
  lemma RunCompletion(u: string, st: State, ps: seq<Part>, gap: string)
    requires st.at <= |u| && PartsHold(ps, st.stack) && (forall k :: 0 <= k < |ps| - 1 ==> !KeyDue(ps[k]))
    requires Occurs(u, st.at, gap) && AllSpace(gap)
    requires Occurs(u, st.at + |gap|, Completion(ps)) && |u| == st.at + |gap| + |Completion(ps)|
    ensures Run(u, st).status == Ok
  {
    hide Run, Continue, Deliver, Occurs, AllSpace, SpelledAt, Closers, Meaning, Print, WellFormed;
    if ps == [] || PendingIn(ps[|ps| - 1]) {
      var i := st.at + |gap|;
      NullSpelled(u, i, ps);
      SpaceOccurs(u, st.at, gap);
      RunScalar(u, st, i, Word("null"));
      if ps == [] {
        DeliversLast(u, Null, i + 4, i);
      } else {
        var g := TakesValue(st.stack, Null, i + 4, i);
        var st1 := State(i + 4, i, st.stack[..|st.stack| - 1] + [g], false);
        RunsOn(u, st1);
        NothingOccurs(u, i + 4);
        RunClosers(u, st1, "", ps);
      }
    } else {
      assert "" + Closers(ps) == Closers(ps);
      RunClosers(u, st, gap, ps);
    }
  }

  lemma GapExtends(text: string, ps: seq<Part>, gap: string, v: string)
    requires Unfinished(text, ps, gap)
    ensures text <= text + v && Occurs(text + v, PartsEnd(ps), gap)
    ensures Occurs(text + v, PartsEnd(ps) + |gap|, v) && |text + v| == PartsEnd(ps) + |gap| + |v|
  {
    OccursExtends(text, text + v, PartsEnd(ps), gap);
  }

  /**
   What finishes an unfinished document: nothing, exactly if a container was opened where a
   key was due; otherwise a value if one is pending, and the closing brackets.
   */
  lemma CompletableIff(text: string, ps: seq<Part>, gap: string)
    requires Unfinished(text, ps, gap) && gap != ""
    ensures IsCompletable(text) <==> forall k :: 0 <= k < |ps| - 1 ==> !KeyDue(ps[k])
    ensures IsCompletable(text) <==> Parse(text + Completion(ps)).status == Ok
  {
    hide Run, PartsAt, PartsEnd, Occurs, AllSpace, Completion, IsCompletable;
    CompletableByRun(text);
    if k :| 0 <= k < |ps| - 1 && KeyDue(ps[k]) {
      forall v ensures Parse(text + v).status != Ok {
        GapExtends(text, ps, gap, v);
        PartsExtend(text, text + v, ps);
        var st := RunParts(text + v, ps);
        DoomedRun(text + v, st, k);
      }
    } else {
      var v := Completion(ps);
      GapExtends(text, ps, gap, v);
      PartsExtend(text, text + v, ps);
      var st := RunParts(text + v, ps);
      RunCompletion(text + v, st, ps, gap);
    }
  }

  /** An array is open in an object that waits for a key, and a blank stands behind both brackets. */
  lemma DoomedParts()
    ensures Unfinished("{[ ", [OpenObj("", NoEntries, None), OpenArr("", NoItems)], " ")
  {
    hide PartsAt, PartAt, PrintPart;
    var a, b := OpenObj("", NoEntries, None), OpenArr("", NoItems);
    NothingParts("{[ ");
    NewPart("{[ ", 0, a);
    PartsSnoc("{[ ", [], a);
    assert [] + [a] == [a];
    NewPart("{[ ", 1, b);
    PartsSnoc("{[ ", [a], b);
    assert [a] + [b] == [a, b];
  }

  lemma NothingParts(text: string)
    ensures PartsAt(text, []) && PartsEnd([]) == 0
  {
  }

  /** A text that is run over although nothing put behind it makes it a document: an array where a key is due. */
  lemma DoomedExample()
    ensures Parse("{[ ").status == PastEnd && !IsCompletable("{[ ")
  {
    hide Unfinished, Parse, IsCompletable;
    var ps := [OpenObj("", NoEntries, None), OpenArr("", NoItems)];
    DoomedParts();
    UnfinishedStalls("{[ ", ps, " ");
    CompletableIff("{[ ", ps, " ");
    assert KeyDue(ps[0]);
  }
}
