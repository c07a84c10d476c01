/**
 Soundness of `jsonParse`: behind every successful run there is a tree that spells what
 was consumed. Together with completeness this makes the trees the exact language.
 */
module JsonSound {
  import opened Options
  import opened Texts
  import opened JsonChars
  import opened JsonMachine
  import opened JsonGrammar
  import opened JsonComplete
  import JsonNumber
  import JsonString

  ghost predicate Succeeds(text: string, st: State) {
    st.at <= |text| && Run(text, st).status == Ok
  }

  lemma BrokenIsNotOk(text: string, j: nat)
    requires j < |text| && Lex(text, j).Broken?
    ensures Lex(text, j).status != Ok
  {
  }

  /** A run that succeeds goes on with a token that fits the containers around it. */
  lemma NextToken(text: string, st: State) returns (j: nat)
    requires Succeeds(text, st) && |st.stack| <= STACK_SIZE
    ensures TokenAt(text, st, j) && !Lex(text, j).Broken?
    ensures Lex(text, j).Open? ==> |st.stack| < STACK_SIZE
    ensures Lex(text, j).Close? ==> CloseStatus(st.stack, Lex(text, j).isObject) == Ok
    ensures Lex(text, j).Colon? || Lex(text, j).Comma? ==>
      && !st.separator && KeyPending(st.stack) == Lex(text, j).Colon?
      && Run(text, st) == Run(text, State(j + 1, j, st.stack, true))
  {
    j := SkipSpace(text, st.at);
    assert st.at < |text|;
    RunRound(text, st, j);
    if Lex(text, j).Broken? { BrokenIsNotOk(text, j); }
  }

  // ---------- scalars ----------

  lemma FindNumber(text: string, j: nat) returns (l: JsonNumber.Literal)
    requires j < |text| && (text[j] == '-' || IsDigit(text[j])) && LexNumber(text, j).Scalar?
    ensures SpelledAt(text, j, Num(l))
  {
    hide Occurs, JsonNumber.Spell, JsonNumber.Value, JsonNumber.Scan;
    JsonNumber.ScanSpells(text, j);
    l := JsonNumber.Scan(text, j).0;
    NumberStarts(text, j);
  }

  lemma NumberStarts(text: string, j: nat)
    requires j < |text| && (text[j] == '-' || IsDigit(text[j])) && LexNumber(text, j).Scalar?
    ensures LiteralOk(JsonNumber.Scan(text, j).0)
  {
    hide JsonNumber.Value;
    var l := JsonNumber.Scan(text, j).0;
    var w := if text[j] == '-' then j + 1 else j;
    assert l.negative == (text[j] == '-') && |l.whole| == DigitsEnd(text, w) - w;
    if IsDigit(At(text, w)) {
      assert DigitsEnd(text, w) >= w + 1;
    } else {
      assert At(text, w) == '.' && DigitsEnd(text, w) == w;
    }
  }

  lemma ClosedSpelled(text: string, j: nat)
    requires j < |text| && text[j] == '\"' && JsonString.ScanString(text, j + 1).Closed?
    requires IsDelim(At(text, JsonString.ScanString(text, j + 1).end))
    ensures StringAt(text, j, JsonString.ScanString(text, j + 1).pieces)
  {
    hide JsonString.SpellPieces, Occurs, JsonString.PiecesOk;
    JsonString.BodySpelled(text, j + 1);
  }

  lemma UnclosedSpelled(text: string, j: nat)
    requires j < |text| && text[j] == '\"' && JsonString.ScanString(text, j + 1).Unclosed?
    ensures SpelledAt(text, j, OpenStr(JsonString.ScanString(text, j + 1).pieces))
  {
    hide JsonString.SpellPieces, Occurs, JsonString.PiecesOk;
    JsonString.BodySpelled(text, j + 1);
  }

  lemma FindString(text: string, j: nat) returns (c: Cst)
    requires j < |text| && text[j] == '\"' && LexString(text, j).Scalar?
    ensures SpelledAt(text, j, c)
    ensures if c.Str? then StringAt(text, j, c.body) else c.OpenStr? && LexString(text, j).next == |text|
  {
    hide StringAt, JsonString.SpellPieces, Occurs, JsonString.PiecesOk, JsonString.ScanString;
    var r := JsonString.ScanString(text, j + 1);
    if r.Closed? {
      ClosedSpelled(text, j);
      c := Str(r.pieces);
    } else {
      UnclosedSpelled(text, j);
      c := OpenStr(r.pieces);
    }
  }

  lemma FindWord(text: string, j: nat) returns (w: string)
    requires j < |text| && text[j] in {'t', 'f', 'n'} && Lex(text, j).Scalar?
    ensures SpelledAt(text, j, Word(w))
  {
    w := if text[j] == 't' then "true" else if text[j] == 'f' then "false" else "null";
  }

  lemma FindScalar(text: string, j: nat) returns (c: Cst)
    requires j < |text| && Lex(text, j).Scalar?
    ensures SpelledAt(text, j, c) && IsScalar(c)
    ensures Lex(text, j).value.String? ==>
      text[j] == '\"' && if c.Str? then StringAt(text, j, c.body) else c.OpenStr? && Lex(text, j).next == |text|
  {
    hide LexNumber, LexString, SpelledAt, StringAt;
    if text[j] == '-' || IsDigit(text[j]) {
      var l := FindNumber(text, j);
      c := Num(l);
      NumberIsNumber(text, j);
    } else if text[j] == '\"' {
      c := FindString(text, j);
    } else {
      var w := FindWord(text, j);
      c := Word(w);
    }
  }

  lemma NumberIsNumber(text: string, j: nat)
    requires j < |text| && (text[j] == '-' || IsDigit(text[j])) && LexNumber(text, j).Scalar?
    ensures LexNumber(text, j).value.Number?
  {
  }

  // ---------- containers ----------

  /** The text in front of the next token is white space. */
  lemma BlankBefore(text: string, i: nat, j: nat)
    requires SpaceBetween(text, i, j)
    ensures Occurs(text, i, text[i..j]) && AllSpace(text[i..j]) && i + |text[i..j]| == j
  {
  }

  /** A comma or colon right behind the state, taken if it is there. */
  lemma TakeMark(text: string, st: State, c: char) returns (mark: Option<string>, st': State)
    requires Succeeds(text, st) && |st.stack| <= STACK_SIZE && !st.separator
    requires (c == ':' && KeyPending(st.stack)) || (c == ',' && !KeyPending(st.stack))
    ensures MarkAt(text, st.at, mark, c) && st'.at == st.at + |PrintMark(mark, c)|
    ensures st'.stack == st.stack && Succeeds(text, st') && Run(text, st) == Run(text, st')
    ensures st'.separator || !MarkNext(text, st')
  {
    hide Run, MarkAt, PrintMark, Occurs;
    var j := NextToken(text, st);
    SkipSpaceIs(text, st.at, j);
    if text[j] == ',' || text[j] == ':' {
      MarkSpelled(text, st.at, j, text[j]);
      mark := Some(text[st.at..j]);
      st' := State(j + 1, j, st.stack, true);
    } else {
      MarkSpelled(text, st.at, st.at, c);
      mark, st' := None, st;
    }
  }

  lemma MarkSpelled(text: string, i: nat, j: nat, c: char)
    requires SpaceBetween(text, i, j)
    ensures MarkAt(text, i, None, c) && PrintMark(None, c) == ""
    ensures j < |text| && text[j] == c ==> MarkAt(text, i, Some(text[i..j]), c)
    ensures |PrintMark(Some(text[i..j]), c)| == j + 1 - i
  {
    BlankBefore(text, i, j);
    OccursConcat(text, i, text[i..j], [c]);
  }

  /** The next token is a comma or a colon. */
  ghost predicate MarkNext(text: string, st: State) {
    st.at <= |text| &&
    var j := SkipSpace(text, st.at);
    j < |text| && (text[j] == ',' || text[j] == ':')
  }

  /** The next token in a successful run, when it is not a mark, closes the innermost container or starts a value. */
  lemma ValueOrEnd(text: string, st: State) returns (j: nat)
    requires Succeeds(text, st) && |st.stack| <= STACK_SIZE && st.stack != []
    requires st.separator || !MarkNext(text, st)
    ensures TokenAt(text, st, j)
    ensures text[j] == ']' || text[j] == '}' ==>
      !KeyPending(st.stack) && EndAt(text, st.at, text[st.at..j], if Top(st.stack).InObject? then '}' else ']')
    ensures text[j] != ']' && text[j] != '}' ==> ValueNext(text, st, j)
  {
    hide SkipSpace, Occurs, AllSpace;
    j := NextToken(text, st);
    SkipSpaceIs(text, st.at, j);
    BlankBefore(text, st.at, j);
  }

  /** A scalar, or a bracket that may still open, is next. */
  ghost predicate ValueNext(text: string, st: State, j: nat) {
    && TokenAt(text, st, j)
    && (Lex(text, j).Scalar? || ((text[j] == '[' || text[j] == '{') && |st.stack| < STACK_SIZE))
  }

  /** A value at `j` has a tree, and the run goes on behind it. */
  lemma {:induction false} FindValue(text: string, st: State, j: nat) returns (c: Cst)
    requires Succeeds(text, st) && |st.stack| <= STACK_SIZE && ValueNext(text, st, j)
    ensures SpelledAt(text, j, c) && |st.stack| + Depth(c) <= STACK_SIZE
    ensures Lex(text, j).Scalar? ==> IsScalar(c)
    decreases |text| - j, 1
  {
    hide Run, SpelledAt, Lex;
    ScalarOrBracket(text, j);
    if text[j] == '[' {
      c := FindArray(text, st, j);
    } else if text[j] == '{' {
      c := FindObject(text, st, j);
    } else {
      c := FindScalar(text, j);
    }
  }

  lemma ScalarOrBracket(text: string, j: nat)
    requires j < |text|
    ensures text[j] == '[' || text[j] == '{' ==> !Lex(text, j).Scalar?
  {
  }

  lemma {:induction false} FindArray(text: string, st: State, j: nat) returns (c: Cst)
    requires Succeeds(text, st) && |st.stack| < STACK_SIZE && TokenAt(text, st, j) && text[j] == '['
    ensures SpelledAt(text, j, c) && |st.stack| + Depth(c) <= STACK_SIZE && c.Arr?
    decreases |text| - j, 0
  {
    hide Run, ItemsAt, EndAt;
    var st1 := OpenRound(text, st, j, false);
    var xs, ws := FindItems(text, st1, st.stack, []);
    c := Arr(xs, ws);
  }

  lemma {:induction false} FindObject(text: string, st: State, j: nat) returns (c: Cst)
    requires Succeeds(text, st) && |st.stack| < STACK_SIZE && TokenAt(text, st, j) && text[j] == '{'
    ensures SpelledAt(text, j, c) && |st.stack| + Depth(c) <= STACK_SIZE && c.Obj?
    decreases |text| - j, 0
  {
    hide Run, EntriesAt, EndAt;
    var st1 := OpenRound(text, st, j, true);
    var xs, ws := FindEntries(text, st1, st.stack, []);
    c := Obj(xs, ws);
  }

  lemma ItemsBuild(text: string, i: nat, xs: Items, room: nat)
    requires xs.Item? ==>
      && Occurs(text, i, xs.ws) && AllSpace(xs.ws) && SpelledAt(text, i + |xs.ws|, xs.item)
      && MarkAt(text, i + |xs.ws| + |Print(xs.item)|, xs.comma, ',')
      && ItemsAt(text, i + |xs.ws| + |Print(xs.item)| + |PrintMark(xs.comma, ',')|, xs.more)
      && Depth(xs.item) <= room && ItemsDepth(xs.more) <= room
    ensures ItemsAt(text, i, xs) && ItemsDepth(xs) <= room
    ensures xs.NoItems? ==> PrintItems(xs) == ""
    ensures xs.Item? ==>
      |PrintItems(xs)| == |xs.ws| + |Print(xs.item)| + |PrintMark(xs.comma, ',')| + |PrintItems(xs.more)|
  {
    hide Occurs, MarkAt, PrintMark, SpelledAt, AllSpace, Print, Depth;
  }

  lemma EntriesBuild(text: string, i: nat, xs: Entries, room: nat)
    requires xs.Entry? ==>
      var m := i + |xs.ws| + |PrintString(xs.key)|;
      var g := m + |PrintMark(xs.colon, ':')|;
      var n := g + |xs.gap| + |Print(xs.item)|;
      && Occurs(text, i, xs.ws) && AllSpace(xs.ws) && StringAt(text, i + |xs.ws|, xs.key)
      && MarkAt(text, m, xs.colon, ':') && Occurs(text, g, xs.gap) && AllSpace(xs.gap)
      && SpelledAt(text, g + |xs.gap|, xs.item) && MarkAt(text, n, xs.comma, ',')
      && EntriesAt(text, n + |PrintMark(xs.comma, ',')|, xs.more)
      && Depth(xs.item) <= room && EntriesDepth(xs.more) <= room
    ensures EntriesAt(text, i, xs) && EntriesDepth(xs) <= room
    ensures xs.NoEntries? ==> PrintEntries(xs) == ""
    ensures xs.Entry? ==>
      |PrintEntries(xs)| == |xs.ws| + |PrintString(xs.key)| + |PrintMark(xs.colon, ':')| + |xs.gap| + |Print(xs.item)|
                          + |PrintMark(xs.comma, ',')| + |PrintEntries(xs.more)|
  {
    hide Occurs, MarkAt, StringAt, PrintMark, PrintString, SpelledAt, AllSpace, Print, Depth;
  }

  lemma {:induction false} FindItems(text: string, st: State, base: seq<Frame>, acc: seq<Value>)
    returns (xs: Items, ws: string)
    requires Succeeds(text, st) && st.stack == base + [InArray(acc)] && |st.stack| <= STACK_SIZE
    requires st.separator || !MarkNext(text, st)
    ensures ItemsAt(text, st.at, xs) && EndAt(text, st.at + |PrintItems(xs)|, ws, ']')
    ensures |base| + 1 + ItemsDepth(xs) <= STACK_SIZE
    decreases |text| - st.at, 3
  {
    hide Run, SpelledAt, Lex, EndAt, MarkNext, ValueNext, Meaning, MarkAt, Deliver, Continue, Occurs, ItemsAt,
      PrintItems, ItemsDepth, Print, PrintMark, Depth, WellFormed, SpaceBetween, IsSpace, AllSpace;
    TopOf(base, InArray(acc), InArray(acc));
    var j := ValueOrEnd(text, st);
    ws := text[st.at..j];
    BlankBefore(text, st.at, j);
    if text[j] == ']' || text[j] == '}' {
      xs := NoItems;
    } else {
      var c := FindValue(text, st, j);
      var last := RunValue(text, st, j, c);
      var st1 := DeliverItem(text, base, acc, Meaning(c), j + |Print(c)|, last);
      TopOf(base, InArray(acc + [Meaning(c)]), InArray([]));
      var comma, st2 := TakeMark(text, st1, ',');
      var more;
      more, ws := FindItems(text, st2, base, acc + [Meaning(c)]);
      xs := Item(text[st.at..j], c, comma, more);
    }
    ItemsBuild(text, st.at, xs, STACK_SIZE - |base| - 1);
  }

  lemma {:induction false} FindEntries(text: string, st: State, base: seq<Frame>, acc: seq<Member>)
    returns (xs: Entries, ws: string)
    requires Succeeds(text, st) && st.stack == base + [InObject(acc, None)] && |st.stack| <= STACK_SIZE
    requires st.separator || !MarkNext(text, st)
    ensures EntriesAt(text, st.at, xs) && EndAt(text, st.at + |PrintEntries(xs)|, ws, '}')
    ensures |base| + 1 + EntriesDepth(xs) <= STACK_SIZE
    decreases |text| - st.at, 3
  {
    hide Run, SpelledAt, Lex, EndAt, MarkNext, ValueNext, Meaning, MarkAt, Deliver, Continue, Occurs, StringMeaning,
      StringAt, EntriesAt, PrintEntries, EntriesDepth, Print, PrintMark, PrintString, Depth, WellFormed, SpaceBetween,
      IsSpace, AllSpace;
    TopOf(base, InObject(acc, None), InArray([]));
    var k := ValueOrEnd(text, st);
    ws := text[st.at..k];
    BlankBefore(text, st.at, k);
    if text[k] == ']' || text[k] == '}' {
      xs := NoEntries;
    } else {
      var key, st1 := FindKey(text, st, k, base, acc);
      TopOf(base, InObject(acc, Some(StringMeaning(key))), InArray([]));
      var colon, st2 := TakeMark(text, st1, ':');
      var j := PendingValue(text, st2);
      BlankBefore(text, st2.at, j);
      var c := FindValue(text, st2, j);
      var last := RunValue(text, st2, j, c);
      var m := Member(StringMeaning(key), Meaning(c));
      var st3 := DeliverMember(text, base, acc, m.key, m.value, j + |Print(c)|, last);
      TopOf(base, InObject(acc + [m], None), InArray([]));
      var comma, st4 := TakeMark(text, st3, ',');
      var more;
      more, ws := FindEntries(text, st4, base, acc + [m]);
      xs := Entry(text[st.at..k], key, colon, text[st2.at..j], c, comma, more);
    }
    EntriesBuild(text, st.at, xs, STACK_SIZE - |base| - 1);
  }

  /** Behind a pending key a value must follow. */
  lemma PendingValue(text: string, st: State) returns (j: nat)
    requires Succeeds(text, st) && |st.stack| <= STACK_SIZE && KeyPending(st.stack)
    requires st.separator || !MarkNext(text, st)
    ensures TokenAt(text, st, j) && ValueNext(text, st, j)
  {
    hide Run, Lex, EndAt, MarkNext, ValueNext;
    j := ValueOrEnd(text, st);
  }

  lemma KeyIsString(text: string, st: State, k: nat, c: Cst, last: nat)
    returns (key: seq<JsonString.Piece>)
    requires Succeeds(text, st) && st.stack != [] && Top(st.stack).InObject? && Top(st.stack).key.None?
    requires SpelledAt(text, k, c) && WellFormed(c) && k + |Print(c)| <= |text|
    requires Run(text, st) == Continue(text, Deliver(st.stack, Meaning(c), k + |Print(c)|, last))
    ensures c == Str(key) && StringAt(text, k, key) && JsonString.PiecesOk(key)
  {
    hide StringAt, Occurs, PrintString, JsonString.PiecesOk, Meaning, SpelledAt, Print, WellFormed, Step;
    KeyMeaning(text, k, c);
    assert Meaning(c).String?;
    key := if c.Str? then c.body else [];
  }

  lemma KeyMeaning(text: string, k: nat, c: Cst)
    requires SpelledAt(text, k, c) && WellFormed(c)
    ensures Meaning(c).String? ==> c.Str? || (c.OpenStr? && k + |Print(c)| == |text|)
    ensures c.Str? ==> StringAt(text, k, c.body) && JsonString.PiecesOk(c.body)
  {
  }

  /** In a successful run the value that stands where a key is due is a closed string. */
  lemma {:induction false} FindKey(text: string, st: State, k: nat, base: seq<Frame>, acc: seq<Member>)
    returns (key: seq<JsonString.Piece>, st': State)
    requires Succeeds(text, st) && st.stack == base + [InObject(acc, None)] && |st.stack| <= STACK_SIZE
    requires TokenAt(text, st, k) && ValueNext(text, st, k)
    ensures StringAt(text, k, key) && JsonString.PiecesOk(key)
    ensures st'.at == k + |PrintString(key)| <= |text| && !st'.separator
    ensures st'.stack == base + [InObject(acc, Some(StringMeaning(key)))]
    ensures Succeeds(text, st') && Run(text, st) == Run(text, st')
    decreases |text| - st.at, 2
  {
    hide SpelledAt, Lex, ValueNext, StringMeaning, StringAt, JsonString.PiecesOk, PrintString, Run, Continue, Deliver;
    var c := FindValue(text, st, k);
    var last := RunValue(text, st, k, c);
    TopOf(base, InObject(acc, None), InArray([]));
    key := KeyIsString(text, st, k, c, last);
    st' := DeliverKey(text, base, acc, StringMeaning(key), k + |PrintString(key)|, last);
  }

  // ---------- the exact language ----------

  /** White space up to `i`, a tree with at most 32 nested containers there, and anything behind it. */
  ghost predicate Accepts(text: string, i: nat, c: Cst) {
    SpaceBetween(text, 0, i) && SpelledAt(text, i, c) && Depth(c) <= 32
  }

  /** A tree at the front of a text is what parsing returns, with `*endptr` just behind it. */
  lemma ParseGives(text: string, i: nat, c: Cst)
    requires Accepts(text, i, c)
    ensures WellFormed(c) && Parse(text) == Halt(Ok, i + |Print(c)|, Some(Meaning(c)))
  {
    hide Run, SpelledAt, Print, Meaning, WellFormed, Depth;
    var last := RunValue(text, START, i, c);
  }

  /** Every successful parse returns a tree at the front of the text. */
  lemma ParseFinds(text: string) returns (i: nat, c: Cst)
    requires Parse(text).status == Ok
    ensures Accepts(text, i, c)
  {
    hide Run, SpelledAt, Depth;
    i := NextToken(text, START);
    FirstToken(text, i);
    c := FindValue(text, START, i);
  }

  lemma FirstToken(text: string, i: nat)
    requires Parse(text).status == Ok && TokenAt(text, START, i) && !Lex(text, i).Broken?
    requires Lex(text, i).Close? ==> CloseStatus([], Lex(text, i).isObject) == Ok
    requires !(Lex(text, i).Colon? || Lex(text, i).Comma?)
    ensures ValueNext(text, START, i)
  {
  }

  /** The language of `jsonParse`, both ways. */
  lemma LanguageIsExact(text: string)
    ensures Parse(text).status == Ok <==> exists i, c :: Accepts(text, i, c)
  {
    if Parse(text).status == Ok {
      var i, c := ParseFinds(text);
    }
    forall i, c | Accepts(text, i, c) ensures Parse(text).status == Ok { ParseGives(text, i, c); }
  }
}
