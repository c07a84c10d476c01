/**
 Documents that `jsonParse` reads to their end without a result, as a grammar: containers
 without their closing brackets, one in the other, and what each holds so far. With white
 space behind them they are exactly the texts in which the cursor steps over the terminator.
 */
module JsonOpen {
  import opened Options
  import opened Texts
  import opened JsonMachine
  import opened JsonGrammar
  import opened JsonComplete
  import opened JsonSound
  import opened Sequences

  /** A key whose value is still to come, with its colon if there is one; at the end of a text it may lack its quote. */
  datatype Pending = Pending(ws: string, key: Cst, colon: Option<string>)

  /** A container without its closing bracket. */
  datatype Part = OpenArr(ws: string, items: Items) | OpenObj(ws: string, entries: Entries, pending: Option<Pending>)

  function PrintPending(p: Option<Pending>): string {
    if p.None? then "" else p.value.ws + Print(p.value.key) + PrintMark(p.value.colon, ':')
  }

  function PrintPart(p: Part): string {
    match p
    case OpenArr(ws, items) => ws + "[" + PrintItems(items)
    case OpenObj(ws, entries, pending) => ws + "{" + PrintEntries(entries) + PrintPending(pending)
  }

  /** How deep the containers are nested that are finished in an unfinished one. */
  function Room(p: Part): nat {
    if p.OpenArr? then ItemsDepth(p.items) else EntriesDepth(p.entries)
  }

  /** A key is due, and no other value may follow. */
  predicate KeyDue(p: Part) {
    p.OpenObj? && p.pending.None?
  }

  /** Whether a comma or colon, or nothing yet, stands behind what a container holds so far. */
  predicate PartMarked(p: Part) {
    match p
    case OpenArr(_, items) => ItemsMarked(items)
    case OpenObj(_, entries, None) => EntriesMarked(entries)
    case OpenObj(_, _, Some(q)) => q.colon.Some?
  }

  predicate Marked(ps: seq<Part>) {
    ps == [] || PartMarked(ps[|ps| - 1])
  }

  /** How many characters the last token of a container has. */
  function PartTail(p: Part): nat {
    match p
    case OpenArr(_, items) => if items.Item? then ItemsTail(items) else 1
    case OpenObj(_, entries, None) => if entries.Entry? then EntriesTail(entries) else 1
    case OpenObj(_, _, Some(q)) => if q.colon.Some? then 1 else |Print(q.key)|
  }

  // ---------- unfinished documents at the front of a text ----------

  ghost predicate PendingAt(text: string, i: nat, p: Option<Pending>) {
    p.Some? ==>
      var Pending(ws, key, colon) := p.value;
      && Occurs(text, i, ws) && AllSpace(ws)
      && SpelledAt(text, i + |ws|, key) && (key.Str? || key.OpenStr?)
      && MarkAt(text, i + |ws| + |Print(key)|, colon, ':')
  }

  ghost predicate PartAt(text: string, i: nat, p: Part) {
    var body := i + |p.ws| + 1;
    && Occurs(text, i, p.ws) && AllSpace(p.ws) && At(text, i + |p.ws|) == (if p.OpenObj? then '{' else '[')
    && match p
       case OpenArr(_, items) => ItemsAt(text, body, items)
       case OpenObj(_, entries, pending) =>
         EntriesAt(text, body, entries) && PendingAt(text, body + |PrintEntries(entries)|, pending)
  }

  /** Where the containers `ps` end, one in the other from the front of a text. */
  function PartsEnd(ps: seq<Part>): nat {
    if ps == [] then 0 else PartsEnd(ps[..|ps| - 1]) + |PrintPart(ps[|ps| - 1])|
  }

  /** The containers `ps` are open at `PartsEnd(ps)`, and nothing is nested more than 32 deep in them. */
  ghost predicate PartsAt(text: string, ps: seq<Part>) {
    ps == [] ||
    var before, p := ps[..|ps| - 1], ps[|ps| - 1];
    PartsAt(text, before) && PartAt(text, PartsEnd(before), p) && |ps| + Room(p) <= 32
  }

  /** The text is the front of a document, white space `gap`, and nothing else. */
  ghost predicate Unfinished(text: string, ps: seq<Part>, gap: string) {
    PartsAt(text, ps) && |text| == PartsEnd(ps) + |gap| && Occurs(text, PartsEnd(ps), gap) && AllSpace(gap)
  }

  lemma PartsSnoc(text: string, ps: seq<Part>, p: Part)
    ensures PartsAt(text, ps + [p]) <==>
      PartsAt(text, ps) && PartAt(text, PartsEnd(ps), p) && |ps| + 1 + Room(p) <= STACK_SIZE
    ensures PartsEnd(ps + [p]) == PartsEnd(ps) + |PrintPart(p)|
  {
    hide PartAt, Room, PrintPart;
    TakeSnoc(ps, p);
  }

  // ---------- unfinished documents are read to their end ----------

  ghost predicate PartHolds(p: Part, f: Frame) {
    p.OpenObj? == f.InObject? && (f.InObject? ==> f.key.Some? == p.pending.Some?)
  }

  ghost predicate PartsHold(ps: seq<Part>, stack: seq<Frame>) {
    |ps| == |stack| && forall k :: 0 <= k < |ps| ==> PartHolds(ps[k], stack[k])
  }

  lemma RunPending(text: string, st: State, p: Option<Pending>, base: seq<Frame>, acc: seq<Member>)
    returns (st': State, f: Frame)
    requires st.at <= |text| && st.stack == base + [InObject(acc, None)] && PendingAt(text, st.at, p)
    ensures st'.at == st.at + |PrintPending(p)| <= |text|
    ensures st'.stack == base + [f] && f.InObject? && f.key.Some? == p.Some?
    ensures p.None? ==> st' == st
    ensures p.Some? ==> st'.separator == p.value.colon.Some?
    ensures p.Some? ==> EndsToken(st', if p.value.colon.Some? then 1 else |Print(p.value.key)|)
    ensures Run(text, st) == Run(text, st')
  {
    hide Run, Continue, Deliver, SpelledAt, MarkAt, Print, PrintMark, Meaning, WellFormed, Occurs, AllSpace;
    if p.None? {
      st', f := st, InObject(acc, None);
    } else {
      var q := p.value;
      var i := st.at + |q.ws|;
      SpaceOccurs(text, st.at, q.ws);
      RunScalar(text, st, i, q.key);
      var key := KeyMeaning(q.key);
      var st1 := DeliverKey(text, base, acc, key, i + |Print(q.key)|, i);
      TopOf(base, InObject(acc, Some(key)), InArray([]));
      st' := RunMark(text, st1, q.colon, ':');
      f := InObject(acc, Some(key));
    }
  }

  lemma KeyMeaning(key: Cst) returns (s: string)
    requires WellFormed(key) && (key.Str? || key.OpenStr?)
    ensures Meaning(key) == String(s)
  {
    s := if key.Str? then StringMeaning(key.body) else OpenMeaning(key.body);
  }

  /** An unfinished container is read into a new frame. */
  lemma RunPart(text: string, st: State, p: Part) returns (st': State, f: Frame)
    requires st.at <= |text| && PartAt(text, st.at, p) && |st.stack| + 1 + Room(p) <= STACK_SIZE
    ensures st'.at == st.at + |PrintPart(p)| <= |text|
    ensures st'.stack == st.stack + [f] && PartHolds(p, f)
    ensures st'.separator == PartMarked(p) && EndsToken(st', PartTail(p)) && Run(text, st) == Run(text, st')
  {
    hide Run, ItemsAt, EntriesAt, PendingAt, PrintItems, PrintEntries, PrintPending, ItemsMeaning, EntriesMeaning,
      Occurs, AllSpace, WellFormedItems, WellFormedEntries;
    var i := st.at + |p.ws|;
    SpaceOccurs(text, st.at, p.ws);
    var st1 := OpenRound(text, st, i, p.OpenObj?);
    if p.OpenArr? {
      st' := RunItems(text, st1, p.items, st.stack, []);
      f := InArray([] + ItemsMeaning(p.items));
    } else {
      var st2 := RunEntries(text, st1, p.entries, st.stack, []);
      st', f := RunPending(text, st2, p.pending, st.stack, [] + EntriesMeaning(p.entries));
    }
  }

  lemma {:induction false} RunParts(text: string, ps: seq<Part>) returns (st: State)
    requires PartsAt(text, ps)
    ensures st.at == PartsEnd(ps) <= |text| && PartsHold(ps, st.stack) && st.separator == Marked(ps)
    ensures if ps == [] then st == START else EndsToken(st, PartTail(ps[|ps| - 1]))
    ensures Run(text, START) == Run(text, st)
    decreases |ps|
  {
    hide Run, PartAt, PrintPart, PartHolds, Room;
    if ps == [] {
      st := START;
    } else {
      var before, p := ps[..|ps| - 1], ps[|ps| - 1];
      var st0 := RunParts(text, before);
      var f;
      st, f := RunPart(text, st0, p);
    }
  }

  /**
   An unfinished document is read to its end: to the terminator, or over it if white space stands
   there. In front of the terminator `*endptr` is where the last token begins.
   */
  lemma UnfinishedStalls(text: string, ps: seq<Part>, gap: string)
    requires Unfinished(text, ps, gap)
    ensures Parse(text).status == if gap == "" then BreakingBad else PastEnd
    ensures gap == "" ==> Parse(text).end == if ps == [] then 0 else |text| - PartTail(ps[|ps| - 1])
  {
    hide PartsAt, PartsHold, Occurs, AllSpace, SkipSpace;
    var st := RunParts(text, ps);
    if gap != "" {
      SpaceOccurs(text, st.at, gap);
      SkipSpaceIs(text, st.at, |text|);
      RunRound(text, st, |text|);
    }
  }

  // ---------- one more value in an unfinished container ----------

  function AppendItem(xs: Items, y: Items): Items {
    match xs
    case NoItems => y
    case Item(ws, c, comma, more) => Item(ws, c, comma, AppendItem(more, y))
  }

  function AppendEntry(xs: Entries, y: Entries): Entries {
    match xs
    case NoEntries => y
    case Entry(ws, key, colon, gap, c, comma, more) => Entry(ws, key, colon, gap, c, comma, AppendEntry(more, y))
  }

  lemma ItemsCons(text: string, i: nat, ws: string, c: Cst, comma: Option<string>, more: Items)
    ensures var xs := Item(ws, c, comma, more);
      var n := i + |ws| + |Print(c)|;
      && (ItemsAt(text, i, xs) <==>
            && Occurs(text, i, ws) && AllSpace(ws) && SpelledAt(text, i + |ws|, c) && MarkAt(text, n, comma, ',')
            && ItemsAt(text, n + |PrintMark(comma, ',')|, more))
      && |PrintItems(xs)| == |ws| + |Print(c)| + |PrintMark(comma, ',')| + |PrintItems(more)|
      && ItemsDepth(xs) == Max(Depth(c), ItemsDepth(more))
  {
    hide Occurs, AllSpace, SpelledAt, MarkAt, Print, PrintMark, Depth;
  }

  lemma EntriesCons(text: string, i: nat, xs: Entries)
    requires xs.Entry?
    ensures var n := i + |xs.ws| + |PrintString(xs.key)|;
      var g := n + |PrintMark(xs.colon, ':')|;
      var e := g + |xs.gap| + |Print(xs.item)|;
      && (EntriesAt(text, i, xs) <==>
            && Occurs(text, i, xs.ws) && AllSpace(xs.ws) && StringAt(text, i + |xs.ws|, xs.key)
              && MarkAt(text, n, xs.colon, ':')
            && Occurs(text, g, xs.gap) && AllSpace(xs.gap) && SpelledAt(text, g + |xs.gap|, xs.item)
            && MarkAt(text, e, xs.comma, ',') && EntriesAt(text, e + |PrintMark(xs.comma, ',')|, xs.more))
      && i + |PrintEntries(xs)| == e + |PrintMark(xs.comma, ',')| + |PrintEntries(xs.more)|
      && EntriesDepth(xs) == Max(Depth(xs.item), EntriesDepth(xs.more))
  {
    hide Occurs, AllSpace, SpelledAt, MarkAt, StringAt, Print, PrintMark, PrintString, Depth;
  }

  lemma NoneAppended(y: Items, z: Entries)
    ensures PrintItems(NoItems) == "" && Max(ItemsDepth(NoItems), ItemsDepth(y)) == ItemsDepth(y)
    ensures PrintEntries(NoEntries) == "" && Max(EntriesDepth(NoEntries), EntriesDepth(z)) == EntriesDepth(z)
  {
  }

  lemma {:induction false} ItemAppended(text: string, i: nat, xs: Items, y: Items)
    requires ItemsAt(text, i, xs) && ItemsAt(text, i + |PrintItems(xs)|, y)
    ensures ItemsAt(text, i, AppendItem(xs, y)) && |PrintItems(AppendItem(xs, y))| == |PrintItems(xs)| + |PrintItems(y)|
    ensures ItemsDepth(AppendItem(xs, y)) == Max(ItemsDepth(xs), ItemsDepth(y))
    decreases xs
  {
    hide Occurs, AllSpace, SpelledAt, MarkAt, Print, PrintMark, Depth, ItemsAt, PrintItems, ItemsDepth;
    match xs
    case NoItems => NoneAppended(y, NoEntries);
    case Item(ws, c, comma, more) =>
      var n := i + |ws| + |Print(c)| + |PrintMark(comma, ',')|;
      ItemsCons(text, i, ws, c, comma, more);
      ItemAppended(text, n, more, y);
      ItemsCons(text, i, ws, c, comma, AppendItem(more, y));
  }

  lemma {:induction false} EntryAppended(text: string, i: nat, xs: Entries, y: Entries)
    requires EntriesAt(text, i, xs) && EntriesAt(text, i + |PrintEntries(xs)|, y)
    ensures EntriesAt(text, i, AppendEntry(xs, y))
    ensures |PrintEntries(AppendEntry(xs, y))| == |PrintEntries(xs)| + |PrintEntries(y)|
    ensures EntriesDepth(AppendEntry(xs, y)) == Max(EntriesDepth(xs), EntriesDepth(y))
    decreases xs
  {
    hide Occurs, AllSpace, SpelledAt, MarkAt, StringAt, Print, PrintMark, PrintString, Depth, EntriesAt, PrintEntries,
      EntriesDepth;
    match xs
    case NoEntries => NoneAppended(NoItems, y);
    case Entry(ws, key, colon, gap, c, comma, more) =>
      var n := i + |ws| + |PrintString(key)| + |PrintMark(colon, ':')| + |gap| + |Print(c)| + |PrintMark(comma, ',')|;
      EntriesCons(text, i, xs);
      EntryAppended(text, n, more, y);
      EntriesCons(text, i, AppendEntry(xs, y));
  }

  /** The container with one more value and the mark behind it; where a key is due, the value is the key. */
  function WithValue(p: Part, ws: string, c: Cst, mark: Option<string>): Part
    requires p.OpenObj? && p.pending.Some? ==> p.pending.value.key.Str?
  {
    match p
    case OpenArr(w, items) => OpenArr(w, AppendItem(items, Item(ws, c, mark, NoItems)))
    case OpenObj(w, entries, None) => OpenObj(w, entries, Some(Pending(ws, c, mark)))
    case OpenObj(w, entries, Some(q)) =>
      OpenObj(w, AppendEntry(entries, Entry(q.ws, q.key.body, q.colon, ws, c, mark, NoEntries)), None)
  }

  /** The mark that may follow on a value. */
  function MarkChar(p: Part): char {
    if KeyDue(p) then ':' else ','
  }

  /** A value and its mark stand at `e`. */
  ghost predicate ValueAt(text: string, e: nat, ws: string, c: Cst, mark: Option<string>, m: char) {
    && Occurs(text, e, ws) && AllSpace(ws) && SpelledAt(text, e + |ws|, c)
    && MarkAt(text, e + |ws| + |Print(c)|, mark, m)
  }

  lemma ValueParts(text: string, e: nat, ws: string, c: Cst, mark: Option<string>, m: char)
    requires ValueAt(text, e, ws, c, mark, m)
    ensures Occurs(text, e, ws) && AllSpace(ws) && SpelledAt(text, e + |ws|, c)
    ensures MarkAt(text, e + |ws| + |Print(c)|, mark, m)
  {
  }

  /** A pending key in front of something else is closed. */
  lemma PendingKeyIsClosed(text: string, i: nat, p: Part, ws: string, c: Cst)
    requires PartAt(text, i, p) && SpelledAt(text, i + |PrintPart(p)| + |ws|, c)
    ensures p.OpenObj? && p.pending.Some? ==> p.pending.value.key.Str?
  {
    hide SpelledAt, PartAt, PrintPart, Print;
    SpelledFacts(text, i + |PrintPart(p)| + |ws|, c);
    if p.OpenObj? && p.pending.Some? {
      var k := PendingKey(text, i, p);
      OpenKeyEnds(text, k, p.pending.value.key);
    }
  }

  lemma PendingKey(text: string, i: nat, p: Part) returns (k: nat)
    requires PartAt(text, i, p) && p.OpenObj? && p.pending.Some?
    ensures var key := p.pending.value.key;
      SpelledAt(text, k, key) && (key.Str? || key.OpenStr?) && k + |Print(key)| <= i + |PrintPart(p)|
  {
    hide EntriesAt, PrintEntries, Occurs, SpelledAt, MarkAt, Print, PrintMark, AllSpace;
    k := i + |p.ws| + 1 + |PrintEntries(p.entries)| + |p.pending.value.ws|;
  }

  lemma OpenKeyEnds(text: string, k: nat, key: Cst)
    requires SpelledAt(text, k, key)
    ensures key.OpenStr? ==> |text| == k + |Print(key)|
  {
    hide StringAt, ItemsAt, EntriesAt, EndAt;
  }

  lemma PartGrows(text: string, i: nat, p: Part, ws: string, c: Cst, mark: Option<string>)
    requires PartAt(text, i, p) && ValueAt(text, i + |PrintPart(p)|, ws, c, mark, MarkChar(p))
    requires KeyDue(p) ==> c.Str? || c.OpenStr?
    ensures p.OpenObj? && p.pending.Some? ==> p.pending.value.key.Str?
    ensures var q := WithValue(p, ws, c, mark);
      && PartAt(text, i, q) && Room(q) <= Max(Room(p), Depth(c))
      && |PrintPart(q)| == |PrintPart(p)| + |ws| + |Print(c)| + |PrintMark(mark, MarkChar(p))|
  {
    hide Occurs, AllSpace, SpelledAt, MarkAt, Print, PrintMark, Depth, PrintItems, PrintEntries, ItemsAt, EntriesAt,
      ItemsDepth, EntriesDepth, AppendItem, AppendEntry, ValueAt;
    ValueParts(text, i + |PrintPart(p)|, ws, c, mark, MarkChar(p));
    PendingKeyIsClosed(text, i, p, ws, c);
    var body := i + |p.ws| + 1;
    if p.OpenArr? {
      var y := Item(ws, c, mark, NoItems);
      OneItem(text, body + |PrintItems(p.items)|, ws, c, mark);
      ItemAppended(text, body, p.items, y);
    } else if p.pending.Some? {
      var q := p.pending.value;
      var y := Entry(q.ws, q.key.body, q.colon, ws, c, mark, NoEntries);
      OneEntry(text, body + |PrintEntries(p.entries)|, q, ws, c, mark);
      EntryAppended(text, body, p.entries, y);
    }
  }

  lemma OneItem(text: string, e: nat, ws: string, c: Cst, mark: Option<string>)
    requires ValueAt(text, e, ws, c, mark, ',')
    ensures var y := Item(ws, c, mark, NoItems);
      && ItemsAt(text, e, y) && |PrintItems(y)| == |ws| + |Print(c)| + |PrintMark(mark, ',')|
        && ItemsDepth(y) == Depth(c)
  {
    hide Occurs, AllSpace, SpelledAt, MarkAt, Print, PrintMark, Depth;
  }

  lemma OneEntry(text: string, i: nat, q: Pending, ws: string, c: Cst, mark: Option<string>)
    requires PendingAt(text, i, Some(q)) && q.key.Str?
    requires ValueAt(text, i + |PrintPending(Some(q))|, ws, c, mark, ',')
    ensures var y := Entry(q.ws, q.key.body, q.colon, ws, c, mark, NoEntries);
      && EntriesAt(text, i, y) && EntriesDepth(y) == Depth(c)
      && |PrintEntries(y)| == |PrintPending(Some(q))| + |ws| + |Print(c)| + |PrintMark(mark, ',')|
  {
    hide Occurs, AllSpace, MarkAt, SpelledAt, StringAt, Print, PrintMark, PrintString, Depth, EntriesAt, PrintEntries,
      EntriesDepth;
    ClosedKey(text, i + |q.ws|, q.key);
    EntriesCons(text, i, Entry(q.ws, q.key.body, q.colon, ws, c, mark, NoEntries));
    NoneAppended(NoItems, NoEntries);
    NothingAt(text, i + |PrintPending(Some(q))| + |ws| + |Print(c)| + |PrintMark(mark, ',')|);
  }

  lemma ClosedKey(text: string, i: nat, key: Cst)
    requires SpelledAt(text, i, key) && key.Str?
    ensures StringAt(text, i, key.body) && Print(key) == PrintString(key.body)
  {
  }

  lemma NothingAt(text: string, i: nat)
    ensures ItemsAt(text, i, NoItems) && EntriesAt(text, i, NoEntries) && EntriesDepth(NoEntries) == 0
  {
  }

  // ---------- a run builds up containers as long as it goes on ----------

  /** The run has come behind the containers `ps`. */
  ghost predicate Reached(text: string, st: State, ps: seq<Part>) {
    && st.at <= |text| && PartsAt(text, ps) && PartsEnd(ps) == st.at
    && PartsHold(ps, st.stack) && st.separator == Marked(ps)
  }

  /** The mark that the run may take. */
  function OpenMark(stack: seq<Frame>): char {
    if KeyPending(stack) then ':' else ','
  }

  /** No mark is next that could still be taken. */
  ghost predicate IsSettled(text: string, st: State)
    requires st.at <= |text|
  {
    var j := SkipSpace(text, st.at);
    st.separator || j == |text| || text[j] != OpenMark(st.stack)
  }

  lemma MarkHalts(text: string, st: State, j: nat)
    requires st.at <= |text| && IsSettled(text, st) && j == SkipSpace(text, st.at) < |text|
    requires text[j] == ',' || text[j] == ':'
    ensures StepToken(text, j, st.stack, st.separator) == Halt(UnexpectedCharacter, j, None)
  {
    MarkLexed(text, j);
  }

  lemma MarkLexed(text: string, j: nat)
    requires j < |text| && (text[j] == ',' || text[j] == ':')
    ensures Lex(text, j) == if text[j] == ',' then Comma else Colon
  {
  }

  /** A comma or colon right behind the state, taken if it is there. */
  lemma TakenMark(text: string, st: State, c: char) returns (mark: Option<string>, st': State)
    requires st.at <= |text| && !st.separator && c == OpenMark(st.stack)
    ensures MarkAt(text, st.at, mark, c) && st'.at == st.at + |PrintMark(mark, c)| <= |text|
    ensures st'.stack == st.stack && st'.separator == mark.Some? && Run(text, st) == Run(text, st')
    ensures IsSettled(text, st')
  {
    hide Run, MarkAt, PrintMark, Occurs, Lex, SkipSpace;
    var j := SkipSpace(text, st.at);
    SpaceSkipped(text, st.at);
    if j < |text| && text[j] == c {
      RunRound(text, st, j);
      MarkLexed(text, j);
      MarkSpelled(text, st.at, j, c);
      mark := Some(text[st.at..j]);
      st' := State(j + 1, j, st.stack, true);
    } else {
      MarkSpelled(text, st.at, st.at, c);
      mark, st' := None, st;
    }
  }

  lemma SpaceSkipped(text: string, i: nat)
    requires i <= |text|
    ensures SpaceBetween(text, i, SkipSpace(text, i))
    ensures i == |text| ==> SkipSpace(text, i) == i
  {
  }

  /** What becomes of the innermost frame when a value is delivered and the run goes on. */
  lemma TakenJoin(stack: seq<Frame>, p: Part, v: Value, next: nat, last: nat) returns (g: Frame)
    requires Deliver(stack, v, next, last).Running? && (stack != [] ==> PartHolds(p, Top(stack)))
    ensures stack != [] && Deliver(stack, v, next, last)
      == Running(State(next, last, stack[..|stack| - 1] + [g], false))
    ensures g.InObject? == p.OpenObj? && (g.InObject? ==> g.key.Some? == KeyDue(p)) && (KeyDue(p) ==> v.String?)
  {
    g := Top(Join(stack, v).value);
  }

  lemma HoldsSnoc(ps: seq<Part>, stack: seq<Frame>, q: Part, g: Frame)
    requires ps != [] && PartsHold(ps, stack) && PartHolds(q, g)
    ensures PartsHold(ps[..|ps| - 1] + [q], stack[..|stack| - 1] + [g])
  {
  }

  lemma GrownHolds(p: Part, ws: string, c: Cst, mark: Option<string>, g: Frame)
    requires p.OpenObj? && p.pending.Some? ==> p.pending.value.key.Str?
    requires g.InObject? == p.OpenObj? && (g.InObject? ==> g.key.Some? == KeyDue(p))
    ensures PartHolds(WithValue(p, ws, c, mark), g) && PartMarked(WithValue(p, ws, c, mark)) == mark.Some?
  {
    if p.OpenArr? {
      AppendMarked(p.items, Item(ws, c, mark, NoItems));
    } else if p.pending.Some? {
      var q := p.pending.value;
      AppendEntryMarked(p.entries, Entry(q.ws, q.key.body, q.colon, ws, c, mark, NoEntries));
    }
  }

  lemma {:induction false} AppendMarked(xs: Items, y: Items)
    requires y.Item? && y.more.NoItems?
    ensures AppendItem(xs, y).Item? && ItemsMarked(AppendItem(xs, y)) == y.comma.Some?
    decreases xs
  {
    if xs.Item? { AppendMarked(xs.more, y); }
  }

  lemma {:induction false} AppendEntryMarked(xs: Entries, y: Entries)
    requires y.Entry? && y.more.NoEntries?
    ensures AppendEntry(xs, y).Entry? && EntriesMarked(AppendEntry(xs, y)) == y.comma.Some?
    decreases xs
  {
    if xs.Entry? { AppendEntryMarked(xs.more, y); }
  }

  lemma MarkOfPart(p: Part, g: Frame, base: seq<Frame>)
    requires g.InObject? == p.OpenObj? && (g.InObject? ==> g.key.Some? == KeyDue(p))
    ensures OpenMark(base + [g]) == MarkChar(p)
  {
  }

  /** A value delivered in a run that goes on joins the innermost container. */
  lemma TakenValue(text: string, ps: seq<Part>, stack: seq<Frame>, ws: string, c: Cst, v: Value, last: nat)
    returns (st': State, ps': seq<Part>)
    requires PartsAt(text, ps) && PartsHold(ps, stack) && |ps| + Depth(c) <= STACK_SIZE
    requires Occurs(text, PartsEnd(ps), ws) && AllSpace(ws) && SpelledAt(text, PartsEnd(ps) + |ws|, c)
    requires v.String? ==> c.Str? || c.OpenStr?
    requires PartsEnd(ps) + |ws| + |Print(c)| <= |text|
    requires Deliver(stack, v, PartsEnd(ps) + |ws| + |Print(c)|, last).Running?
    ensures Reached(text, st', ps') && IsSettled(text, st') && st'.at >= PartsEnd(ps) + |ws| + |Print(c)|
    ensures Run(text, st') == Continue(text, Deliver(stack, v, PartsEnd(ps) + |ws| + |Print(c)|, last))
  {
    hide Run, Continue, Deliver, PartsAt, PartAt, Occurs, AllSpace, SpelledAt, MarkAt, Print, PrintMark, PrintPart,
      Depth, Room, PartHolds, PartMarked, WithValue, IsSettled, PartsEnd, OpenMark, MarkChar;
    var next := PartsEnd(ps) + |ws| + |Print(c)|;
    var p := if ps == [] then OpenArr("", NoItems) else ps[|ps| - 1];
    var g := TakenJoin(stack, p, v, next, last);
    SnocLast(ps);
    PartsSnoc(text, ps[..|ps| - 1], p);
    var st := State(next, last, stack[..|stack| - 1] + [g], false);
    MarkOfPart(p, g, stack[..|stack| - 1]);
    RunsOn(text, st);
    var mark;
    mark, st' := TakenMark(text, st, MarkChar(p));
    PartGrows(text, PartsEnd(ps[..|ps| - 1]), p, ws, c, mark);
    var q := WithValue(p, ws, c, mark);
    GrownHolds(p, ws, c, mark, g);
    HoldsSnoc(ps, stack, q, g);
    ps' := ps[..|ps| - 1] + [q];
    PartsSnoc(text, ps[..|ps| - 1], q);
    TakeSnoc(ps[..|ps| - 1], q);
  }

  lemma RunsOn(text: string, st: State)
    requires st.at <= |text|
    ensures Continue(text, Running(st)) == Run(text, st)
  {
  }

  /** The container closed by a bracket behind white space. */
  function Closed(p: Part, end: string): Cst {
    if p.OpenArr? then Arr(p.items, end) else Obj(p.entries, end)
  }

  lemma ClosedSpells(text: string, i: nat, p: Part, end: string)
    requires PartAt(text, i, p) && (p.OpenObj? ==> p.pending.None?)
    requires EndAt(text, i + |PrintPart(p)|, end, if p.OpenObj? then '}' else ']')
    ensures SpelledAt(text, i + |p.ws|, Closed(p, end)) && Occurs(text, i, p.ws) && AllSpace(p.ws)
    ensures i + |p.ws| + |Print(Closed(p, end))| == i + |PrintPart(p)| + |end| + 1
    ensures Depth(Closed(p, end)) == 1 + Room(p)
  {
    hide Occurs, AllSpace, ItemsAt, EntriesAt, PrintItems, PrintEntries, ItemsDepth, EntriesDepth;
  }

  /** The round with the token at `j` ends in `r`, and the run goes on. */
  ghost predicate GoesOn(text: string, st: State, j: nat, r: Outcome)
    requires j < |text|
  {
    r == StepToken(text, j, st.stack, st.separator) && r.Running? && r.state.at <= |text|
  }

  lemma ScalarGoesOn(text: string, st: State, j: nat, r: Outcome)
    requires j < |text| && Lex(text, j).Scalar? && GoesOn(text, st, j, r)
    ensures r == Deliver(st.stack, Lex(text, j).value, Lex(text, j).next, j) && r.Running?
    ensures Lex(text, j).next <= |text|
  {
    hide Lex, Deliver;
  }

  lemma StepBracket(text: string, j: nat, stack: seq<Frame>, separator: bool)
    requires j < |text|
    ensures text[j] == '[' || text[j] == '{' ==>
      StepToken(text, j, stack, separator) == OpenFrame(stack, text[j] == '{', j)
    ensures text[j] == ']' || text[j] == '}' ==>
      StepToken(text, j, stack, separator) == CloseFrame(stack, text[j] == '}', j)
  {
    hide OpenFrame, CloseFrame;
  }

  /** A run goes on behind a closing bracket only if the innermost container is of its kind and has no key pending. */
  lemma TakenCloses(stack: seq<Frame>, isObject: bool, j: nat)
    requires CloseFrame(stack, isObject, j).Running?
    ensures stack != [] && Top(stack).InObject? == isObject && !KeyPending(stack)
    ensures CloseFrame(stack, isObject, j) == Deliver(stack[..|stack| - 1], Finished(Top(stack)), j + 1, j)
  {
    hide Deliver;
  }

  /** The tree of a scalar token. */
  lemma ScalarTree(text: string, j: nat) returns (c: Cst)
    requires j < |text| && Lex(text, j).Scalar?
    ensures SpelledAt(text, j, c) && IsScalar(c) && j < j + |Print(c)| == Lex(text, j).next
    ensures Lex(text, j).value.String? ==> c.Str? || c.OpenStr?
  {
    hide Lex, SpelledAt, StringAt, Print, Meaning, WellFormed;
    c := FindScalar(text, j);
    ScalarFound(text, j, c);
    SpelledFacts(text, j, c);
  }

  lemma TakenScalar(text: string, st: State, ps: seq<Part>, j: nat, ws: string, r: Outcome)
    returns (st': State, ps': seq<Part>)
    requires Reached(text, st, ps) && Occurs(text, st.at, ws) && AllSpace(ws) && j == st.at + |ws| < |text|
    requires Lex(text, j).Scalar? && GoesOn(text, st, j, r)
    ensures Reached(text, st', ps') && IsSettled(text, st') && st'.at > st.at
    ensures Run(text, st') == Continue(text, r)
  {
    hide Continue, Run, Lex, Occurs, SpelledAt, PartsHold, PartsAt, PartsEnd, Print, AllSpace, IsSettled, GoesOn,
      Deliver, Marked;
    ScalarGoesOn(text, st, j, r);
    var c := ScalarTree(text, j);
    PartsFit(text, ps, c);
    st', ps' := TakenValue(text, ps, st.stack, ws, c, Lex(text, j).value, j);
  }

  lemma PartsFit(text: string, ps: seq<Part>, c: Cst)
    requires PartsAt(text, ps)
    ensures |ps| <= STACK_SIZE && (IsScalar(c) ==> |ps| + Depth(c) <= STACK_SIZE)
  {
  }

  lemma TakenOpen(text: string, st: State, ps: seq<Part>, j: nat, ws: string, r: Outcome)
    returns (st': State, ps': seq<Part>)
    requires Reached(text, st, ps) && Occurs(text, st.at, ws) && AllSpace(ws) && j == st.at + |ws| < |text|
    requires (text[j] == '[' || text[j] == '{') && GoesOn(text, st, j, r)
    ensures Reached(text, st', ps') && IsSettled(text, st') && st'.at > st.at
    ensures Run(text, st') == Continue(text, r)
  {
    hide Run, StepToken, PartsAt, PartAt, PrintPart, PartsEnd, Room, Occurs, AllSpace;
    var isObject := text[j] == '{';
    var p := if isObject then OpenObj(ws, NoEntries, None) else OpenArr(ws, NoItems);
    var f := if isObject then InObject([], None) else InArray([]);
    st' := State(j + 1, j, st.stack + [f], true);
    ps' := ps + [p];
    StepBracket(text, j, st.stack, st.separator);
    PartsFit(text, ps, Word(""));
    NewPart(text, st.at, p);
    PartsSnoc(text, ps, p);
  }

  lemma NewPart(text: string, i: nat, p: Part)
    requires Occurs(text, i, p.ws) && AllSpace(p.ws) && At(text, i + |p.ws|) == (if p.OpenObj? then '{' else '[')
    requires if p.OpenObj? then p.entries.NoEntries? && p.pending.None? else p.items.NoItems?
    ensures PartAt(text, i, p) && |PrintPart(p)| == |p.ws| + 1 && Room(p) == 0
  {
    hide Occurs, AllSpace;
  }

  lemma TakenClose(text: string, st: State, ps: seq<Part>, j: nat, ws: string, r: Outcome)
    returns (st': State, ps': seq<Part>)
    requires Reached(text, st, ps) && Occurs(text, st.at, ws) && AllSpace(ws) && j == st.at + |ws| < |text|
    requires (text[j] == ']' || text[j] == '}') && GoesOn(text, st, j, r)
    ensures Reached(text, st', ps') && IsSettled(text, st') && st'.at > st.at
    ensures Run(text, st') == Continue(text, r)
  {
    hide Continue, Run, Occurs, AllSpace, PartAt, PrintPart, SpelledAt, Print, Depth, Room, Deliver, IsSettled,
      StepToken, CloseFrame, Marked;
    var stack := st.stack;
    StepBracket(text, j, stack, st.separator);
    TakenCloses(stack, text[j] == '}', j);
    var before, p := ps[..|ps| - 1], ps[|ps| - 1];
    assert PartHolds(p, Top(stack));
    ClosedSpells(text, PartsEnd(before), p, ws);
    st', ps' := TakenValue(text, before, stack[..|stack| - 1], p.ws, Closed(p, ws), Finished(Top(stack)), j);
  }

  /** A round of a run that goes on: the value it finishes, if any, joins the innermost container with its mark. */
  lemma TakenRound(text: string, st: State, ps: seq<Part>, j: nat) returns (st': State, ps': seq<Part>)
    requires Reached(text, st, ps) && IsSettled(text, st) && st.at <= j < |text| && j == SkipSpace(text, st.at)
    requires StepToken(text, j, st.stack, st.separator).Running?
    ensures Reached(text, st', ps') && IsSettled(text, st') && st'.at > st.at && Run(text, st') == Run(text, st)
  {
    hide Run, Occurs, SkipSpace, PartsHold, PartsAt, LexNumber, LexString, LexWord, Deliver, OpenFrame, CloseFrame,
      IsSettled;
    RunRound(text, st, j);
    SpaceSkipped(text, st.at);
    BlankBefore(text, st.at, j);
    var ws, r := text[st.at..j], StepToken(text, j, st.stack, st.separator);
    if text[j] == ',' || text[j] == ':' { MarkHalts(text, st, j); }
    if Lex(text, j).Scalar? {
      st', ps' := TakenScalar(text, st, ps, j, ws, r);
    } else if text[j] == '[' || text[j] == '{' {
      st', ps' := TakenOpen(text, st, ps, j, ws, r);
    } else {
      st', ps' := TakenClose(text, st, ps, j, ws, r);
    }
  }

  /** Every run comes behind some containers to a token that halts it, or to the end of the text. */
  lemma {:induction false} FindHalt(text: string, st: State, ps: seq<Part>)
    returns (st': State, ps': seq<Part>, j: nat)
    requires Reached(text, st, ps) && IsSettled(text, st)
    ensures Reached(text, st', ps') && Run(text, st') == Run(text, st)
    ensures IsSettled(text, st') && st'.at <= j == SkipSpace(text, st'.at)
    ensures j < |text| ==> StepToken(text, j, st'.stack, st'.separator).Halt?
    decreases |text| - st.at
  {
    hide Run, PartsAt, PartsHold, IsSettled, SkipSpace, StepToken;
    SpaceSkipped(text, st.at);
    j := SkipSpace(text, st.at);
    if j < |text| && StepToken(text, j, st.stack, st.separator).Running? {
      var st1, ps1 := TakenRound(text, st, ps, j);
      st', ps', j := FindHalt(text, st1, ps1);
    } else {
      st', ps' := st, ps;
    }
  }

  // ---------- what is read to its end is an unfinished document ----------

  predicate IsStall(r: Outcome) {
    r.Halt? && (r.status == PastEnd || r.status == BreakingBad)
  }

  lemma EndOfRun(text: string, st: State)
    requires st.at <= |text| == SkipSpace(text, st.at)
    ensures Run(text, st).status == if st.at == |text| then BreakingBad else PastEnd
  {
    if st.at < |text| { RunRound(text, st, |text|); }
  }

  /** A token that halts the run is no stall. */
  lemma HaltIsNoStall(text: string, st: State, j: nat)
    requires st.at <= |text| && j == SkipSpace(text, st.at) < |text|
    requires StepToken(text, j, st.stack, st.separator).Halt?
    ensures Run(text, st) == StepToken(text, j, st.stack, st.separator) && !IsStall(Run(text, st))
  {
    hide Lex;
    RunRound(text, st, j);
    LexStatus(text, j);
  }

  lemma FromStart(text: string)
    ensures Reached(text, START, []) && IsSettled(text, START)
  {
  }

  lemma FindStalled(text: string) returns (ps: seq<Part>, gap: string)
    requires IsStall(Parse(text))
    ensures Unfinished(text, ps, gap) && (gap == "" <==> Parse(text).status == BreakingBad)
  {
    hide Run, PartsAt, PartsHold, IsSettled, Occurs, AllSpace, SkipSpace, StepToken, IsStall;
    FromStart(text);
    var st, j;
    st, ps, j := FindHalt(text, START, []);
    if j < |text| { HaltIsNoStall(text, st, j); }
    SpaceSkipped(text, st.at);
    BlankBefore(text, st.at, j);
    gap := text[st.at..j];
    EndOfRun(text, st);
  }

  /** The cursor steps over the terminator exactly on unfinished documents with white space behind them. */
  lemma PastEndIffUnfinished(text: string)
    ensures Parse(text).status == PastEnd <==> exists ps, gap :: Unfinished(text, ps, gap) && gap != ""
  {
    hide Unfinished;
    if Parse(text).status == PastEnd {
      var ps, gap := FindStalled(text);
    }
    forall ps, gap | Unfinished(text, ps, gap) && gap != "" ensures Parse(text).status == PastEnd {
      UnfinishedStalls(text, ps, gap);
    }
  }

  /** It stops on the terminator exactly on unfinished documents without. */
  lemma BreakingBadIffUnfinished(text: string)
    ensures Parse(text).status == BreakingBad <==> exists ps :: Unfinished(text, ps, "")
  {
    hide Unfinished;
    if Parse(text).status == BreakingBad {
      var ps, gap := FindStalled(text);
    }
    forall ps | Unfinished(text, ps, "") ensures Parse(text).status == BreakingBad {
      UnfinishedStalls(text, ps, "");
    }
  }
}
