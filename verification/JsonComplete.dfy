/**
 Completeness of `jsonParse`: a tree spelled at the cursor is consumed, and its meaning
 delivered to the containers around it.
 */
module JsonComplete {
  import opened Options
  import opened Texts
  import opened JsonChars
  import opened JsonMachine
  import opened JsonGrammar
  import JsonNumber
  import JsonString

  lemma FirstOfString(text: string, i: nat, body: seq<JsonString.Piece>)
    requires StringAt(text, i, body)
    ensures i < |text| && text[i] == '\"' && i + |PrintString(body)| <= |text|
    ensures Lex(text, i) == Scalar(String(StringMeaning(body)), i + |PrintString(body)|)
  {
    JsonString.ClosedFound(text, i + 1, body);
  }

  predicate IsScalar(c: Cst) {
    !c.Arr? && !c.Obj?
  }

  lemma NumberFound(text: string, i: nat, l: JsonNumber.Literal)
    requires LiteralOk(l) && Occurs(text, i, JsonNumber.Spell(l)) && IsDelim(At(text, i + |JsonNumber.Spell(l)|))
    ensures i < |text| && (text[i] == '-' || IsDigit(text[i]))
    ensures LexNumber(text, i) == Scalar(Number(JsonNumber.Value(l)), i + |JsonNumber.Spell(l)|)
  {
    hide Occurs, JsonNumber.Spell, JsonNumber.Value, JsonNumber.Scan, LexNumber;
    FirstOfNumber(text, i, l);
    JsonNumber.ScanFinds(text, i, l);
    NumberLexed(text, i, l, i + |JsonNumber.Spell(l)|);
  }

  lemma FirstOfNumber(text: string, i: nat, l: JsonNumber.Literal)
    requires LiteralOk(l) && Occurs(text, i, JsonNumber.Spell(l))
    ensures i < |text| && (text[i] == '-' || IsDigit(text[i]))
    ensures text[i] == '-' ==> IsDigit(At(text, i + 1)) || At(text, i + 1) == '.'
  {
    hide Occurs, JsonNumber.Spell;
    JsonNumber.SpelledInParts(text, i, l);
    JsonNumber.MinusAt(text, i, l);
    var w := i + |JsonNumber.SpellMinus(l.negative)|;
    if l.negative { OccursAt(text, i, "-", 0); }
    if l.whole != "" {
      OccursAt(text, w, l.whole, 0);
    } else {
      OccursAt(text, w, JsonNumber.SpellFraction(l.fraction), 0);
    }
  }

  lemma NumberLexed(text: string, i: nat, l: JsonNumber.Literal, end: nat)
    requires i < |text| && (text[i] == '-' || IsDigit(text[i]))
    requires text[i] == '-' ==> IsDigit(At(text, i + 1)) || At(text, i + 1) == '.'
    requires JsonNumber.WellFormed(l) && JsonNumber.Scan(text, i) == (l, end) && IsDelim(At(text, end))
    ensures LexNumber(text, i) == Scalar(Number(JsonNumber.Value(l)), end)
  {
    hide JsonNumber.Value, JsonNumber.Scan;
  }

  lemma WordFound(text: string, i: nat, w: string)
    requires IsWord(w) && Occurs(text, i, w) && IsDelim(At(text, i + |w|))
    ensures i < |text| && text[i] == w[0] && Lex(text, i) == Scalar(WordMeaning(w), i + |w|)
  {
    OccursAt(text, i, w, 0);
  }

  lemma OpenFound(text: string, i: nat, body: seq<JsonString.Piece>)
    requires SpelledAt(text, i, OpenStr(body))
    ensures i < |text| && text[i] == '\"'
    ensures LexString(text, i) == Scalar(String(OpenMeaning(body)), |text|)
  {
    hide Occurs, JsonString.SpellPieces, JsonString.Decode, JsonString.ScanString, LexString;
    JsonString.UnclosedFound(text, i + 1, body);
    OpenStored(text, i, body);
    OpenLexed(text, i);
  }

  lemma OpenStored(text: string, i: nat, body: seq<JsonString.Piece>)
    requires JsonString.PiecesOk(body) && Occurs(text, i + 1, JsonString.SpellPieces(body))
    requires |text| == i + 1 + |JsonString.SpellPieces(body)|
    requires JsonString.ScanString(text, i + 1) == JsonString.Unclosed(body)
    ensures CString(JsonString.Stored(text, i + 1)) == OpenMeaning(body)
  {
    hide Occurs, JsonString.SpellPieces, JsonString.Decode, JsonString.ScanString, CString;
    var s, d := JsonString.SpellPieces(body), JsonString.Decode(body);
    JsonString.DecodeFits(text, i + 1);
    TailIs(text, i + 1, s, |d|);
  }

  lemma OpenLexed(text: string, i: nat)
    requires i < |text| && JsonString.ScanString(text, i + 1).Unclosed?
    ensures LexString(text, i) == Scalar(String(CString(JsonString.Stored(text, i + 1))), |text|)
  {
    hide CString, JsonString.Stored;
  }

  lemma TailIs(text: string, i: nat, s: string, n: nat)
    requires Occurs(text, i, s) && |text| == i + |s| && n <= |s|
    ensures text[i + n..] == s[n..]
  {
    var t := text[i + n..];
    forall k | 0 <= k < |t| ensures t[k] == s[n..][k] { assert text[i + (n + k)] == s[n + k]; }
  }

  lemma ScalarFound(text: string, i: nat, c: Cst)
    requires SpelledAt(text, i, c) && IsScalar(c)
    ensures WellFormed(c) && i < |text| && !IsSpace(text[i])
    ensures Lex(text, i) == Scalar(Meaning(c), i + |Print(c)|)
  {
    match c
    case Num(l) => NumberFound(text, i, l);
    case Str(body) => FirstOfString(text, i, body);
    case OpenStr(body) => OpenFound(text, i, body);
    case Word(w) => WordFound(text, i, w);
  }

  /** A spelled tree is well formed, takes the room of its spelling and does not start with white space. */
  lemma {:induction false} SpelledFacts(text: string, i: nat, c: Cst)
    requires SpelledAt(text, i, c)
    ensures WellFormed(c)
    ensures i < |text| && !IsSpace(text[i]) && i < i + |Print(c)| <= |text|
    decreases c
  {
    if IsScalar(c) {
      ScalarFound(text, i, c);
    } else if c.Arr? {
      ItemsFacts(text, i + 1, c.items);
    } else {
      EntriesFacts(text, i + 1, c.entries);
    }
  }

  lemma {:induction false} ItemsFacts(text: string, i: nat, xs: Items)
    requires ItemsAt(text, i, xs)
    ensures WellFormedItems(xs)
    decreases xs
  {
    if xs.Item? {
      hide Occurs, ItemValue, ItemMark, ItemNext;
      SpelledFacts(text, ItemValue(i, xs), xs.item);
      ItemsFacts(text, ItemNext(i, xs), xs.more);
    }
  }

  lemma {:induction false} EntriesFacts(text: string, i: nat, xs: Entries)
    requires EntriesAt(text, i, xs)
    ensures WellFormedEntries(xs)
    decreases xs
  {
    if xs.Entry? {
      hide Occurs, EntryColon, EntryGap, EntryValue, EntryMark, EntryNext;
      SpelledFacts(text, EntryValue(i, xs), xs.item);
      EntriesFacts(text, EntryNext(i, xs), xs.more);
    }
  }

  // ---------- running over a spelled tree ----------

  /** The next token of a run starts at `j`. */
  ghost predicate TokenAt(text: string, st: State, j: nat) {
    st.at <= j < |text| && SpaceBetween(text, st.at, j) && !IsSpace(text[j])
  }

  lemma RunToken(text: string, st: State, j: nat)
    requires TokenAt(text, st, j)
    ensures var r := StepToken(text, j, st.stack, st.separator);
      && (r.Running? ==> j < r.state.at <= |text|)
      && Run(text, st) == Continue(text, r)
  {
    SkipSpaceIs(text, st.at, j);
    RunRound(text, st, j);
  }

  /** A mark in the text: white space and one punctuation character. */
  lemma MarkFound(text: string, st: State, mark: string, c: char)
    requires MarkAt(text, st.at, Some(mark), c) && !IsSpace(c)
    ensures TokenAt(text, st, st.at + |mark|) && text[st.at + |mark|] == c
  {
    OccursConcat(text, st.at, mark, [c]);
    SpaceOccurs(text, st.at, mark);
    OccursAt(text, st.at + |mark|, [c], 0);
  }

  lemma MarkStep(text: string, j: nat, stack: seq<Frame>, c: char)
    requires j < |text| && text[j] == c && (c == ',' || c == ':') && KeyPending(stack) == (c == ':')
    ensures StepToken(text, j, stack, false) == Running(State(j + 1, j, stack, true))
  {
    hide KeyPending;
  }

  lemma CloseStep(text: string, j: nat, base: seq<Frame>, f: Frame, separator: bool)
    requires j < |text| && text[j] == (if f.InObject? then '}' else ']') && (f.InObject? ==> f.key.None?)
    ensures StepToken(text, j, base + [f], separator) == Deliver(base, Finished(f), j + 1, j)
  {
    hide Deliver, Finished;
    assert (base + [f])[..|base|] == base;
  }

  /** Behind an optional comma or colon that the flag and the key slot allow, only the flag may have changed. */
  lemma RunMark(text: string, st: State, mark: Option<string>, c: char) returns (st': State)
    requires MarkAt(text, st.at, mark, c) && (c == ',' || c == ':')
    requires st.at <= |text| && !st.separator && KeyPending(st.stack) == (c == ':')
    ensures st'.at == st.at + |PrintMark(mark, c)| <= |text| && st'.stack == st.stack
    ensures st'.separator == mark.Some? && Run(text, st) == Run(text, st')
    ensures if mark.Some? then EndsToken(st', 1) else st' == st
  {
    hide Run, StepToken, TokenAt, KeyPending;
    if mark.None? {
      st' := st;
    } else {
      var j := st.at + |mark.value|;
      MarkFound(text, st, mark.value, c);
      RunToken(text, st, j);
      MarkStep(text, j, st.stack, c);
      st' := State(j + 1, j, st.stack, true);
    }
  }

  /** The last token has `n` characters and ends at the cursor. */
  predicate EndsToken(st: State, n: nat) {
    st.last + n == st.at
  }

  /** A closing bracket behind white space turns the innermost container into a value. */
  lemma RunClose(text: string, st: State, ws: string, base: seq<Frame>, f: Frame)
    requires st.stack == base + [f] && (f.InObject? ==> f.key.None?)
    requires EndAt(text, st.at, ws, if f.InObject? then '}' else ']')
    ensures var j := st.at + |ws|;
      && j < |text|
      && Run(text, st) == Continue(text, Deliver(base, Finished(f), j + 1, j))
  {
    hide Run, Deliver, Finished, StepToken;
    var j := st.at + |ws|;
    SpaceOccurs(text, st.at, ws);
    RunToken(text, st, j);
    CloseStep(text, j, base, f, st.separator);
  }

  lemma TopOf(base: seq<Frame>, f: Frame, g: Frame)
    ensures Top(base + [f]) == f && WithTop(base + [f], g) == base + [g]
  {
  }

  /** A spelled tree is consumed, and what it means is delivered to the containers around it. */
  lemma {:induction false} RunValue(text: string, st: State, i: nat, c: Cst) returns (last: nat)
    requires st.at <= i && SpaceBetween(text, st.at, i) && SpelledAt(text, i, c)
    requires |st.stack| + Depth(c) <= STACK_SIZE
    ensures WellFormed(c) && i < i + |Print(c)| <= |text| && last + Tail(c) == i + |Print(c)|
    ensures Run(text, st) == Continue(text, Deliver(st.stack, Meaning(c), i + |Print(c)|, last))
    decreases c, 1
  {
    hide Run, Continue, Deliver, SpelledAt, Print, Meaning, WellFormed, SpaceBetween;
    SpelledFacts(text, i, c);
    if IsScalar(c) {
      RunScalar(text, st, i, c);
      last := i;
    } else if c.Arr? {
      last := RunArray(text, st, i, c);
    } else {
      last := RunObject(text, st, i, c);
    }
  }

  lemma RunScalar(text: string, st: State, i: nat, c: Cst)
    requires st.at <= i && SpaceBetween(text, st.at, i) && SpelledAt(text, i, c) && IsScalar(c)
    ensures WellFormed(c) && i < i + |Print(c)| <= |text|
    ensures Run(text, st) == Continue(text, Deliver(st.stack, Meaning(c), i + |Print(c)|, i))
  {
    hide Run, Continue, Deliver, SpelledAt, Print, Meaning, WellFormed, Lex;
    SpelledFacts(text, i, c);
    ScalarFound(text, i, c);
    RunToken(text, st, i);
  }

  lemma RunString(text: string, st: State, i: nat, body: seq<JsonString.Piece>)
    requires st.at <= i && SpaceBetween(text, st.at, i) && StringAt(text, i, body)
    ensures JsonString.PiecesOk(body) && i + |PrintString(body)| <= |text|
    ensures Run(text, st) == Continue(text, Deliver(st.stack, String(StringMeaning(body)), i + |PrintString(body)|, i))
  {
    hide Run, Continue, Deliver, PrintString, Lex, StringMeaning;
    FirstOfString(text, i, body);
    RunToken(text, st, i);
  }

  lemma ArrayParts(text: string, i: nat, c: Cst)
    requires SpelledAt(text, i, c) && c.Arr?
    ensures i < |text| && text[i] == '[' && ItemsAt(text, i + 1, c.items)
    ensures EndAt(text, i + 1 + |PrintItems(c.items)|, c.end, ']')
    ensures i + |Print(c)| == i + 1 + |PrintItems(c.items)| + |c.end| + 1
    ensures WellFormed(c) && WellFormedItems(c.items) && Meaning(c) == Array(ItemsMeaning(c.items))
    ensures Depth(c) == 1 + ItemsDepth(c.items)
  {
    SpelledFacts(text, i, c);
  }

  lemma ObjectParts(text: string, i: nat, c: Cst)
    requires SpelledAt(text, i, c) && c.Obj?
    ensures i < |text| && text[i] == '{' && EntriesAt(text, i + 1, c.entries)
    ensures EndAt(text, i + 1 + |PrintEntries(c.entries)|, c.end, '}')
    ensures i + |Print(c)| == i + 1 + |PrintEntries(c.entries)| + |c.end| + 1
    ensures WellFormed(c) && WellFormedEntries(c.entries) && Meaning(c) == Object(EntriesMeaning(c.entries))
    ensures Depth(c) == 1 + EntriesDepth(c.entries)
  {
    SpelledFacts(text, i, c);
  }

  lemma {:induction false} RunArray(text: string, st: State, i: nat, c: Cst) returns (last: nat)
    requires st.at <= i && SpaceBetween(text, st.at, i) && SpelledAt(text, i, c) && c.Arr?
    requires |st.stack| + Depth(c) <= STACK_SIZE && WellFormed(c) && i + |Print(c)| <= |text|
    ensures last + 1 == i + |Print(c)|
    ensures Run(text, st) == Continue(text, Deliver(st.stack, Meaning(c), i + |Print(c)|, last))
    decreases c, 0
  {
    hide Run, Continue, Deliver, SpelledAt, ItemsAt, EndAt, Print, PrintItems, Meaning, ItemsMeaning, WellFormed,
      WellFormedItems, Depth, SpaceBetween;
    ArrayParts(text, i, c);
    var st1 := OpenRound(text, st, i, false);
    var st2 := RunItems(text, st1, c.items, st.stack, []);
    RunClose(text, st2, c.end, st.stack, InArray([] + ItemsMeaning(c.items)));
    assert [] + ItemsMeaning(c.items) == ItemsMeaning(c.items);
    last := st2.at + |c.end|;
  }

  lemma {:induction false} RunObject(text: string, st: State, i: nat, c: Cst) returns (last: nat)
    requires st.at <= i && SpaceBetween(text, st.at, i) && SpelledAt(text, i, c) && c.Obj?
    requires |st.stack| + Depth(c) <= STACK_SIZE && WellFormed(c) && i + |Print(c)| <= |text|
    ensures last + 1 == i + |Print(c)|
    ensures Run(text, st) == Continue(text, Deliver(st.stack, Meaning(c), i + |Print(c)|, last))
    decreases c, 0
  {
    hide Run, Continue, Deliver, SpelledAt, EntriesAt, EndAt, Print, PrintEntries, Meaning, EntriesMeaning, WellFormed,
      WellFormedEntries, Depth, SpaceBetween;
    ObjectParts(text, i, c);
    var st1 := OpenRound(text, st, i, true);
    var st2 := RunEntries(text, st1, c.entries, st.stack, []);
    RunClose(text, st2, c.end, st.stack, InObject([] + EntriesMeaning(c.entries), None));
    assert [] + EntriesMeaning(c.entries) == EntriesMeaning(c.entries);
    last := st2.at + |c.end|;
  }

  lemma OpenRound(text: string, st: State, i: nat, isObject: bool) returns (st1: State)
    requires TokenAt(text, st, i) && text[i] == (if isObject then '{' else '[') && |st.stack| < STACK_SIZE
    ensures st1 == State(i + 1, i, st.stack + [if isObject then InObject([], None) else InArray([])], true)
    ensures Run(text, st) == Run(text, st1)
  {
    RunToken(text, st, i);
    st1 := State(i + 1, i, st.stack + [if isObject then InObject([], None) else InArray([])], true);
  }

  lemma DeliverItem(text: string, base: seq<Frame>, acc: seq<Value>, v: Value, next: nat, last: nat) returns (st: State)
    requires next <= |text|
    ensures st == State(next, last, base + [InArray(acc + [v])], false)
    ensures Continue(text, Deliver(base + [InArray(acc)], v, next, last)) == Run(text, st)
  {
    TopOf(base, InArray(acc), InArray(acc + [v]));
    st := State(next, last, base + [InArray(acc + [v])], false);
  }

  lemma DeliverKey(text: string, base: seq<Frame>, acc: seq<Member>, key: string, next: nat, last: nat)
    returns (st: State)
    requires next <= |text|
    ensures st == State(next, last, base + [InObject(acc, Some(key))], false)
    ensures Continue(text, Deliver(base + [InObject(acc, None)], String(key), next, last)) == Run(text, st)
  {
    TopOf(base, InObject(acc, None), InObject(acc, Some(key)));
    st := State(next, last, base + [InObject(acc, Some(key))], false);
  }

  lemma DeliverMember(text: string, base: seq<Frame>, acc: seq<Member>, key: string, v: Value, next: nat, last: nat)
    returns (st: State)
    requires next <= |text|
    ensures st == State(next, last, base + [InObject(acc + [Member(key, v)], None)], false)
    ensures Continue(text, Deliver(base + [InObject(acc, Some(key))], v, next, last)) == Run(text, st)
  {
    TopOf(base, InObject(acc, Some(key)), InObject(acc + [Member(key, v)], None));
    st := State(next, last, base + [InObject(acc + [Member(key, v)], None)], false);
  }

  lemma NoParts()
    ensures PrintItems(NoItems) == "" && WellFormedItems(NoItems) && ItemsMeaning(NoItems) == []
    ensures PrintEntries(NoEntries) == "" && WellFormedEntries(NoEntries) && EntriesMeaning(NoEntries) == []
  {
  }

  lemma ItemParts(text: string, i: nat, xs: Items)
    requires xs.Item? && ItemsAt(text, i, xs)
    ensures SpaceBetween(text, i, ItemValue(i, xs)) && SpelledAt(text, ItemValue(i, xs), xs.item)
    ensures MarkAt(text, ItemMark(i, xs), xs.comma, ',') && ItemsAt(text, ItemNext(i, xs), xs.more)
    ensures Depth(xs.item) <= ItemsDepth(xs) && ItemsDepth(xs.more) <= ItemsDepth(xs)
    ensures ItemMark(i, xs) == ItemValue(i, xs) + |Print(xs.item)|
    ensures ItemNext(i, xs) == ItemMark(i, xs) + |PrintMark(xs.comma, ',')|
    ensures i + |PrintItems(xs)| == ItemNext(i, xs) + |PrintItems(xs.more)|
    ensures WellFormedItems(xs) && WellFormed(xs.item) && WellFormedItems(xs.more)
    ensures ItemsMeaning(xs) == [Meaning(xs.item)] + ItemsMeaning(xs.more)
  {
    SpaceOccurs(text, i, xs.ws);
    ItemsFacts(text, i, xs);
  }

  lemma {:induction false} RunItems(text: string, st: State, xs: Items, base: seq<Frame>, acc: seq<Value>)
    returns (st': State)
    requires st.at <= |text| && st.stack == base + [InArray(acc)] && ItemsAt(text, st.at, xs)
    requires |base| + 1 + ItemsDepth(xs) <= STACK_SIZE
    ensures WellFormedItems(xs) && st'.at == st.at + |PrintItems(xs)| <= |text|
    ensures st'.stack == base + [InArray(acc + ItemsMeaning(xs))]
    ensures if xs.NoItems? then st' == st else st'.separator == ItemsMarked(xs) && EndsToken(st', ItemsTail(xs))
    ensures Run(text, st) == Run(text, st')
    decreases xs
  {
    hide Run, Continue, Deliver, SpelledAt, ItemsAt, MarkAt, Print, PrintItems, PrintMark, ItemValue, ItemMark,
      ItemNext, ItemsDepth, Meaning, ItemsMeaning, WellFormed, WellFormedItems, SpaceBetween, Tail;
    if xs.NoItems? {
      NoParts();
      st' := st;
      assert acc + [] == acc;
    } else {
      ItemParts(text, st.at, xs);
      var last := RunValue(text, st, ItemValue(st.at, xs), xs.item);
      var st1 := DeliverItem(text, base, acc, Meaning(xs.item), ItemMark(st.at, xs), last);
      TopOf(base, InArray(acc + [Meaning(xs.item)]), InArray([]));
      var st2 := RunMark(text, st1, xs.comma, ',');
      st' := RunItems(text, st2, xs.more, base, acc + [Meaning(xs.item)]);
      assert acc + [Meaning(xs.item)] + ItemsMeaning(xs.more) == acc + ItemsMeaning(xs);
    }
  }

  lemma EntryParts(text: string, i: nat, xs: Entries)
    requires xs.Entry? && EntriesAt(text, i, xs)
    ensures SpaceBetween(text, i, i + |xs.ws|) && StringAt(text, i + |xs.ws|, xs.key)
    ensures MarkAt(text, EntryColon(i, xs), xs.colon, ':')
    ensures SpaceBetween(text, EntryGap(i, xs), EntryValue(i, xs)) && SpelledAt(text, EntryValue(i, xs), xs.item)
    ensures MarkAt(text, EntryMark(i, xs), xs.comma, ',') && EntriesAt(text, EntryNext(i, xs), xs.more)
    ensures Depth(xs.item) <= EntriesDepth(xs) && EntriesDepth(xs.more) <= EntriesDepth(xs)
    ensures EntryColon(i, xs) == i + |xs.ws| + |PrintString(xs.key)|
    ensures EntryGap(i, xs) == EntryColon(i, xs) + |PrintMark(xs.colon, ':')|
    ensures EntryMark(i, xs) == EntryValue(i, xs) + |Print(xs.item)|
    ensures EntryNext(i, xs) == EntryMark(i, xs) + |PrintMark(xs.comma, ',')|
    ensures i + |PrintEntries(xs)| == EntryNext(i, xs) + |PrintEntries(xs.more)|
    ensures WellFormedEntries(xs) && JsonString.PiecesOk(xs.key) && WellFormed(xs.item) && WellFormedEntries(xs.more)
    ensures EntriesMeaning(xs) == [Member(StringMeaning(xs.key), Meaning(xs.item))] + EntriesMeaning(xs.more)
  {
    SpaceOccurs(text, i, xs.ws);
    SpaceOccurs(text, EntryGap(i, xs), xs.gap);
    EntriesFacts(text, i, xs);
  }

  /** A key, with or without its colon, is pending in the innermost object. */
  lemma RunKey(text: string, st: State, xs: Entries, base: seq<Frame>, acc: seq<Member>) returns (st': State)
    requires st.at <= |text| && st.stack == base + [InObject(acc, None)] && xs.Entry? && EntriesAt(text, st.at, xs)
    ensures JsonString.PiecesOk(xs.key) && st'.at == EntryGap(st.at, xs) <= |text|
    ensures st'.stack == base + [InObject(acc, Some(StringMeaning(xs.key)))]
    ensures Run(text, st) == Run(text, st')
  {
    hide Run, Continue, Deliver, StepToken, Lex, EntriesAt, StringAt, PrintString, PrintMark, EntryColon, EntryGap,
      EntryValue, EntryMark, EntryNext, StringMeaning, SpelledAt, MarkAt, JsonString.PiecesOk, SpaceBetween;
    EntryParts(text, st.at, xs);
    var k := st.at + |xs.ws|;
    RunString(text, st, k, xs.key);
    var st1 := DeliverKey(text, base, acc, StringMeaning(xs.key), EntryColon(st.at, xs), k);
    TopOf(base, InObject(acc, Some(StringMeaning(xs.key))), InArray([]));
    st' := RunMark(text, st1, xs.colon, ':');
  }

  lemma {:induction false} RunEntries(text: string, st: State, xs: Entries, base: seq<Frame>, acc: seq<Member>)
    returns (st': State)
    requires st.at <= |text| && st.stack == base + [InObject(acc, None)] && EntriesAt(text, st.at, xs)
    requires |base| + 1 + EntriesDepth(xs) <= STACK_SIZE
    ensures WellFormedEntries(xs) && st'.at == st.at + |PrintEntries(xs)| <= |text|
    ensures st'.stack == base + [InObject(acc + EntriesMeaning(xs), None)]
    ensures if xs.NoEntries? then st' == st else st'.separator == EntriesMarked(xs) && EndsToken(st', EntriesTail(xs))
    ensures Run(text, st) == Run(text, st')
    decreases xs
  {
    hide Run, Continue, Deliver, SpelledAt, EntriesAt, StringAt, MarkAt, Print, PrintEntries, PrintMark, PrintString,
      EntryColon, EntryGap, EntryValue, EntryMark, EntryNext, EntriesDepth, Meaning, EntriesMeaning, StringMeaning,
      WellFormed, WellFormedEntries, SpaceBetween, JsonString.PiecesOk, Tail;
    if xs.NoEntries? {
      NoParts();
      st' := st;
      assert acc + [] == acc;
    } else {
      EntryParts(text, st.at, xs);
      var key, v := StringMeaning(xs.key), Meaning(xs.item);
      var st1 := RunKey(text, st, xs, base, acc);
      var last := RunValue(text, st1, EntryValue(st.at, xs), xs.item);
      var st2 := DeliverMember(text, base, acc, key, v, EntryMark(st.at, xs), last);
      TopOf(base, InObject(acc + [Member(key, v)], None), InArray([]));
      var st3 := RunMark(text, st2, xs.comma, ',');
      st' := RunEntries(text, st3, xs.more, base, acc + [Member(key, v)]);
      assert acc + [Member(key, v)] + EntriesMeaning(xs.more) == acc + EntriesMeaning(xs);
    }
  }
}
