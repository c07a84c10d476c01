/**
 RFC 8259 documents. A document is a tree spelled with the grammar's own punctuation,
 white space and number format; `jsonParse` accepts it exactly if no string holds a raw
 DEL and containers nest at most 32 deep, and then returns its tree.
 */
module JsonRfc {
  import opened Options
  import opened Texts
  import opened JsonChars
  import opened JsonMachine
  import opened JsonGrammar
  import opened JsonComplete
  import opened JsonSound
  import JsonNumber
  import JsonString

  predicate IsRfcSpace(c: char) {
    c == ' ' || c == '\t' || c == '\n' || c == '\r'
  }

  ghost predicate RfcBlank(s: string) {
    forall i :: 0 <= i < |s| ==> IsRfcSpace(s[i])
  }

  /** Section 6 of RFC 8259. */
  ghost predicate RfcLiteral(l: JsonNumber.Literal) {
    && JsonNumber.WellFormed(l)
    && l.whole != "" && (l.whole[0] == '0' ==> |l.whole| == 1)
    && (l.fraction.Some? ==> l.fraction.value != "")
    && (l.exponent.Some? ==> l.exponent.value.digits != "")
  }

  /** Sections 2 to 7 of RFC 8259: separators stand between elements and nowhere else. */
  ghost predicate Rfc(c: Cst) {
    match c
    case Num(l) => RfcLiteral(l)
    case Str(body) => JsonString.RfcPiecesOk(body)
    case OpenStr(_) => false
    case Word(w) => IsWord(w)
    case Arr(items, end) => RfcItems(items) && RfcBlank(end)
    case Obj(entries, end) => RfcEntries(entries) && RfcBlank(end)
  }

  ghost predicate RfcItems(xs: Items) {
    xs.Item? ==>
      && RfcBlank(xs.ws) && Rfc(xs.item) && xs.comma.Some? == xs.more.Item?
      && (xs.comma.Some? ==> RfcBlank(xs.comma.value)) && RfcItems(xs.more)
  }

  ghost predicate RfcEntries(xs: Entries) {
    xs.Entry? ==>
      && RfcBlank(xs.ws) && JsonString.RfcPiecesOk(xs.key) && xs.colon.Some? && RfcBlank(xs.colon.value)
      && RfcBlank(xs.gap) && Rfc(xs.item) && xs.comma.Some? == xs.more.Entry?
      && (xs.comma.Some? ==> RfcBlank(xs.comma.value)) && RfcEntries(xs.more)
  }

  /** No string or key holds an unescaped DEL. */
  ghost predicate Clean(c: Cst) {
    match c
    case Str(body) => JsonString.NoDelete(body)
    case Arr(items, _) => CleanItems(items)
    case Obj(entries, _) => CleanEntries(entries)
    case _ => true
  }

  ghost predicate CleanItems(xs: Items) {
    xs.Item? ==> Clean(xs.item) && CleanItems(xs.more)
  }

  ghost predicate CleanEntries(xs: Entries) {
    xs.Entry? ==> JsonString.NoDelete(xs.key) && Clean(xs.item) && CleanEntries(xs.more)
  }

  // ---------- taking a spelling apart ----------

  /** `c` is printed at `i`, with a delimiter behind it. */
  ghost predicate PrintedAt(text: string, i: nat, c: Cst) {
    Occurs(text, i, Print(c)) && IsDelim(At(text, i + |Print(c)|))
  }

  ghost predicate ItemsPrinted(text: string, i: nat, xs: Items) {
    Occurs(text, i, PrintItems(xs)) && IsDelim(At(text, i + |PrintItems(xs)|))
  }

  ghost predicate EntriesPrinted(text: string, i: nat, xs: Entries) {
    Occurs(text, i, PrintEntries(xs)) && IsDelim(At(text, i + |PrintEntries(xs)|))
  }

  lemma BlankIsSpace(s: string)
    requires RfcBlank(s)
    ensures AllSpace(s)
  {
  }

  lemma HeadIsDelim(text: string, i: nat, ws: string, c: char)
    requires Occurs(text, i, ws + [c]) && AllSpace(ws) && IsDelim(c)
    ensures IsDelim(At(text, i)) && Occurs(text, i, ws) && At(text, i + |ws|) == c
  {
    OccursConcat(text, i, ws, [c]);
    OccursAt(text, i + |ws|, [c], 0);
    if ws != "" { OccursAt(text, i, ws, 0); }
  }

  /** What is printed between the brackets of a container, `body`, and its end. */
  lemma BracketsPrinted(text: string, i: nat, open: char, body: string, end: string, close: char)
    requires Occurs(text, i, [open] + body + end + [close]) && AllSpace(end) && IsDelim(close)
    ensures At(text, i) == open && Occurs(text, i + 1, body) && IsDelim(At(text, i + 1 + |body|))
    ensures EndAt(text, i + 1 + |body|, end, close)
  {
    var m := i + 1 + |body|;
    Assoc([open] + body, end, [close]);
    OccursConcat(text, i, [open] + body, end + [close]);
    OccursConcat(text, i, [open], body);
    OccursAt(text, i, [open], 0);
    HeadIsDelim(text, m, end, close);
  }

  lemma ArrayPrinted(text: string, i: nat, c: Cst)
    requires Rfc(c) && c.Arr? && PrintedAt(text, i, c)
    ensures At(text, i) == '[' && ItemsPrinted(text, i + 1, c.items)
    ensures EndAt(text, i + 1 + |PrintItems(c.items)|, c.end, ']')
  {
    hide Occurs, PrintItems, RfcItems, AllSpace, RfcBlank, IsDelim;
    BlankIsSpace(c.end);
    BracketsPrinted(text, i, '[', PrintItems(c.items), c.end, ']');
  }

  lemma ObjectPrinted(text: string, i: nat, c: Cst)
    requires Rfc(c) && c.Obj? && PrintedAt(text, i, c)
    ensures At(text, i) == '{' && EntriesPrinted(text, i + 1, c.entries)
    ensures EndAt(text, i + 1 + |PrintEntries(c.entries)|, c.end, '}')
  {
    hide Occurs, PrintEntries, RfcEntries, AllSpace, RfcBlank, IsDelim;
    BlankIsSpace(c.end);
    BracketsPrinted(text, i, '{', PrintEntries(c.entries), c.end, '}');
  }

  /** A separator that is there starts with a delimiter; without one, what follows the list does. */
  lemma MarkPrinted(text: string, i: nat, mark: Option<string>, c: char)
    requires Occurs(text, i, PrintMark(mark, c)) && (mark.Some? ==> RfcBlank(mark.value)) && (c == ',' || c == ':')
    ensures MarkAt(text, i, mark, c)
    ensures mark.Some? ==> IsDelim(At(text, i))
  {
    if mark.Some? {
      BlankIsSpace(mark.value);
      HeadIsDelim(text, i, mark.value, c);
    }
  }

  lemma ItemPrinted(text: string, i: nat, xs: Items)
    requires RfcItems(xs) && xs.Item? && ItemsPrinted(text, i, xs)
    ensures Occurs(text, i, xs.ws) && AllSpace(xs.ws) && SpaceBetween(text, i, ItemValue(i, xs))
    ensures PrintedAt(text, ItemValue(i, xs), xs.item)
    ensures MarkAt(text, ItemMark(i, xs), xs.comma, ',') && ItemsPrinted(text, ItemNext(i, xs), xs.more)
    ensures Rfc(xs.item) && RfcItems(xs.more)
  {
    hide Print, RfcLiteral;
    var a, b, c, d := xs.ws, Print(xs.item), PrintMark(xs.comma, ','), PrintItems(xs.more);
    OccursConcat(text, i, a + b + c, d);
    OccursConcat(text, i, a + b, c);
    OccursConcat(text, i, a, b);
    BlankIsSpace(xs.ws);
    SpaceOccurs(text, i, xs.ws);
    MarkPrinted(text, ItemMark(i, xs), xs.comma, ',');
  }

  lemma EntryPieces(text: string, i: nat, xs: Entries)
    requires xs.Entry? && EntriesPrinted(text, i, xs)
    ensures Occurs(text, i, xs.ws) && Occurs(text, i + |xs.ws|, PrintString(xs.key))
    ensures Occurs(text, EntryColon(i, xs), PrintMark(xs.colon, ':')) && Occurs(text, EntryGap(i, xs), xs.gap)
    ensures Occurs(text, EntryValue(i, xs), Print(xs.item)) && Occurs(text, EntryMark(i, xs), PrintMark(xs.comma, ','))
    ensures EntriesPrinted(text, EntryNext(i, xs), xs.more)
  {
    hide Print, PrintString, PrintMark, Occurs;
    var a, b, c := xs.ws, PrintString(xs.key), PrintMark(xs.colon, ':');
    var d, e, f, g := xs.gap, Print(xs.item), PrintMark(xs.comma, ','), PrintEntries(xs.more);
    OccursConcat(text, i, a + b + c + d + e + f, g);
    OccursConcat(text, i, a + b + c + d + e, f);
    OccursConcat(text, i, a + b + c + d, e);
    OccursConcat(text, i, a + b + c, d);
    OccursConcat(text, i, a + b, c);
    OccursConcat(text, i, a, b);
  }

  lemma EntryPrinted(text: string, i: nat, xs: Entries)
    requires RfcEntries(xs) && xs.Entry? && EntriesPrinted(text, i, xs)
    ensures Occurs(text, i, xs.ws) && AllSpace(xs.ws) && SpaceBetween(text, i, i + |xs.ws|)
    ensures Occurs(text, i + |xs.ws|, PrintString(xs.key)) && IsDelim(At(text, EntryColon(i, xs)))
    ensures MarkAt(text, EntryColon(i, xs), xs.colon, ':')
    ensures Occurs(text, EntryGap(i, xs), xs.gap) && AllSpace(xs.gap)
      && SpaceBetween(text, EntryGap(i, xs), EntryValue(i, xs))
    ensures PrintedAt(text, EntryValue(i, xs), xs.item)
    ensures MarkAt(text, EntryMark(i, xs), xs.comma, ',') && EntriesPrinted(text, EntryNext(i, xs), xs.more)
    ensures Rfc(xs.item) && RfcEntries(xs.more) && JsonString.RfcPiecesOk(xs.key)
  {
    hide Print, PrintString, RfcLiteral, JsonString.RfcPiecesOk, Occurs, MarkAt, AllSpace, SpaceBetween, RfcBlank,
      IsDelim;
    EntryPieces(text, i, xs);
    BlankIsSpace(xs.ws);
    BlankIsSpace(xs.gap);
    SpaceOccurs(text, i, xs.ws);
    SpaceOccurs(text, EntryGap(i, xs), xs.gap);
    MarkPrinted(text, EntryColon(i, xs), xs.colon, ':');
    MarkPrinted(text, EntryMark(i, xs), xs.comma, ',');
  }

  // ---------- clean documents are spelled in the sense of the parser's grammar ----------

  lemma StringPrinted(text: string, i: nat, body: seq<JsonString.Piece>)
    requires Occurs(text, i, PrintString(body)) && IsDelim(At(text, i + |PrintString(body)|))
    ensures i < |text| && text[i] == '\"' && Occurs(text, i + 1, JsonString.SpellPieces(body))
    ensures JsonString.PiecesOk(body) ==> StringAt(text, i, body)
  {
    var s := JsonString.SpellPieces(body);
    OccursConcat(text, i, "\"" + s, "\"");
    OccursConcat(text, i, "\"", s);
    OccursAt(text, i, "\"", 0);
    OccursAt(text, i + 1 + |s|, "\"", 0);
  }

  lemma CleanScalarIsSpelled(text: string, i: nat, c: Cst)
    requires Rfc(c) && Clean(c) && PrintedAt(text, i, c) && !c.Arr? && !c.Obj?
    ensures SpelledAt(text, i, c)
  {
    hide Occurs, PrintString, JsonString.PiecesOk, JsonString.RfcPiecesOk, StringAt;
    if c.Str? {
      JsonString.PiecesOkIff(c.body);
      StringPrinted(text, i, c.body);
    }
  }

  lemma {:induction false} CleanIsSpelled(text: string, i: nat, c: Cst)
    requires Rfc(c) && Clean(c) && PrintedAt(text, i, c)
    ensures SpelledAt(text, i, c)
    decreases c
  {
    hide PrintedAt, Occurs, JsonString.PiecesOk, JsonString.RfcPiecesOk, EndAt, ItemsAt, EntriesAt;
    match c
    case Arr(items, _) =>
      ArrayPrinted(text, i, c);
      CleanItemsAreSpelled(text, i + 1, items);
    case Obj(entries, _) =>
      ObjectPrinted(text, i, c);
      CleanEntriesAreSpelled(text, i + 1, entries);
    case _ => CleanScalarIsSpelled(text, i, c);
  }

  lemma {:induction false} CleanItemsAreSpelled(text: string, i: nat, xs: Items)
    requires RfcItems(xs) && CleanItems(xs) && ItemsPrinted(text, i, xs)
    ensures ItemsAt(text, i, xs)
    decreases xs
  {
    hide Rfc, RfcItems, Clean, Print, PrintedAt, ItemsPrinted, Occurs, MarkAt, SpelledAt, AllSpace;
    if xs.Item? {
      ItemPrinted(text, i, xs);
      CleanIsSpelled(text, ItemValue(i, xs), xs.item);
      CleanItemsAreSpelled(text, ItemNext(i, xs), xs.more);
    }
  }

  lemma KeyIsRfc(xs: Entries)
    requires xs.Entry? && RfcEntries(xs)
    ensures JsonString.RfcPiecesOk(xs.key)
  {
  }

  lemma {:induction false} CleanEntriesAreSpelled(text: string, i: nat, xs: Entries)
    requires RfcEntries(xs) && CleanEntries(xs) && EntriesPrinted(text, i, xs)
    ensures EntriesAt(text, i, xs)
    decreases xs
  {
    hide Rfc, RfcEntries, Clean, Print, PrintString, PrintedAt, EntriesPrinted, Occurs, MarkAt, SpelledAt, AllSpace,
      StringAt, JsonString.RfcPiecesOk, JsonString.PiecesOk, JsonString.NoDelete;
    if xs.Entry? {
      JsonString.PiecesOkIff(xs.key);
      KeyIsRfc(xs);
      EntryPrinted(text, i, xs);
      StringPrinted(text, i + |xs.ws|, xs.key);
      CleanIsSpelled(text, EntryValue(i, xs), xs.item);
      CleanEntriesAreSpelled(text, EntryNext(i, xs), xs.more);
    }
  }

  // ---------- the other documents are refused ----------

  ghost predicate Refused(r: Outcome) {
    r.Halt? && (r.status == BadString || r.status == StackOverflow)
  }

  lemma DirtyString(text: string, st: State, i: nat, body: seq<JsonString.Piece>)
    requires st.at <= i && SpaceBetween(text, st.at, i) && Occurs(text, i, PrintString(body))
    requires IsDelim(At(text, i + |PrintString(body)|))
    requires JsonString.RfcPiecesOk(body) && !JsonString.NoDelete(body)
    ensures Refused(Run(text, st))
  {
    hide Occurs, PrintString, Run, JsonString.PiecesOk, JsonString.RfcPiecesOk, JsonString.NoDelete;
    StringPrinted(text, i, body);
    JsonString.DeleteRefused(text, i + 1, body);
    RunToken(text, st, i);
  }

  lemma Overflow(text: string, st: State, i: nat)
    requires TokenAt(text, st, i) && (text[i] == '[' || text[i] == '{') && |st.stack| == STACK_SIZE
    ensures Run(text, st) == Halt(StackOverflow, i, None)
  {
    RunToken(text, st, i);
  }

  /** A document with a raw DEL, or too deep for the stack, stops the run. */
  lemma {:induction false} RunRefuses(text: string, st: State, i: nat, c: Cst)
    requires st.at <= i && SpaceBetween(text, st.at, i) && Rfc(c) && PrintedAt(text, i, c)
    requires |st.stack| <= STACK_SIZE && !(Clean(c) && |st.stack| + Depth(c) <= STACK_SIZE)
    ensures Refused(Run(text, st))
    decreases c
  {
    hide Run, PrintedAt, ItemsPrinted, EntriesPrinted, Print, Occurs, JsonString.PiecesOk, JsonString.RfcPiecesOk,
      EndAt, ItemsDepth, EntriesDepth, CleanItems, CleanEntries;
    match c
    case Str(body) =>
      PrintedString(text, i, body);
      DirtyString(text, st, i, body);
    case Arr(items, _) =>
      ArrayPrinted(text, i, c);
      if |st.stack| == STACK_SIZE {
        Overflow(text, st, i);
      } else {
        var st1 := OpenRound(text, st, i, false);
        ItemsRefuse(text, st1, items, st.stack, []);
      }
    case Obj(entries, _) =>
      ObjectPrinted(text, i, c);
      if |st.stack| == STACK_SIZE {
        Overflow(text, st, i);
      } else {
        var st1 := OpenRound(text, st, i, true);
        EntriesRefuse(text, st1, entries, st.stack, []);
      }
    case _ =>
  }

  lemma PrintedString(text: string, i: nat, body: seq<JsonString.Piece>)
    requires PrintedAt(text, i, Str(body))
    ensures Occurs(text, i, PrintString(body)) && IsDelim(At(text, i + |PrintString(body)|))
  {
  }

  lemma {:induction false} ItemsRefuse(text: string, st: State, xs: Items, base: seq<Frame>, acc: seq<Value>)
    requires st.at <= |text| && st.stack == base + [InArray(acc)] && |st.stack| <= STACK_SIZE
    requires RfcItems(xs) && ItemsPrinted(text, st.at, xs)
    requires !(CleanItems(xs) && |base| + 1 + ItemsDepth(xs) <= STACK_SIZE)
    ensures Refused(Run(text, st))
    decreases xs
  {
    hide Run, RfcItems, Rfc, ItemsPrinted, PrintedAt, Print, PrintMark, Occurs, AllSpace, SpaceBetween, MarkAt,
      SpelledAt, Deliver, Continue, Meaning, WellFormed, Clean, Depth;
    ItemPrinted(text, st.at, xs);
    var v := ItemValue(st.at, xs);
    if !(Clean(xs.item) && |st.stack| + Depth(xs.item) <= STACK_SIZE) {
      RunRefuses(text, st, v, xs.item);
    } else {
      CleanIsSpelled(text, v, xs.item);
      var last := RunValue(text, st, v, xs.item);
      var st1 := DeliverItem(text, base, acc, Meaning(xs.item), ItemMark(st.at, xs), last);
      TopOf(base, InArray(acc + [Meaning(xs.item)]), InArray([]));
      var st2 := RunMark(text, st1, xs.comma, ',');
      ItemsRefuse(text, st2, xs.more, base, acc + [Meaning(xs.item)]);
    }
  }

  lemma {:induction false} EntriesRefuse(text: string, st: State, xs: Entries, base: seq<Frame>, acc: seq<Member>)
    requires st.at <= |text| && st.stack == base + [InObject(acc, None)] && |st.stack| <= STACK_SIZE
    requires RfcEntries(xs) && EntriesPrinted(text, st.at, xs)
    requires !(CleanEntries(xs) && |base| + 1 + EntriesDepth(xs) <= STACK_SIZE)
    ensures Refused(Run(text, st))
    decreases xs
  {
    hide Run, RfcEntries, Rfc, EntriesPrinted, PrintedAt, Print, PrintMark, PrintString, Occurs, AllSpace,
      SpaceBetween, MarkAt, SpelledAt, StringAt, Deliver, Continue, Meaning, StringMeaning, WellFormed, Clean, Depth,
      JsonString.PiecesOk, JsonString.RfcPiecesOk;
    EntryPrinted(text, st.at, xs);
    var k := st.at + |xs.ws|;
    JsonString.PiecesOkIff(xs.key);
    if !JsonString.NoDelete(xs.key) {
      DirtyString(text, st, k, xs.key);
    } else {
      StringPrinted(text, k, xs.key);
      RunString(text, st, k, xs.key);
      var key := StringMeaning(xs.key);
      var st1 := DeliverKey(text, base, acc, key, EntryColon(st.at, xs), k);
      TopOf(base, InObject(acc, Some(key)), InArray([]));
      var st2 := RunMark(text, st1, xs.colon, ':');
      var v := EntryValue(st.at, xs);
      if !(Clean(xs.item) && |st2.stack| + Depth(xs.item) <= STACK_SIZE) {
        RunRefuses(text, st2, v, xs.item);
      } else {
        CleanIsSpelled(text, v, xs.item);
        var last := RunValue(text, st2, v, xs.item);
        var m := Member(key, Meaning(xs.item));
        var st3 := DeliverMember(text, base, acc, key, Meaning(xs.item), EntryMark(st.at, xs), last);
        TopOf(base, InObject(acc + [m], None), InArray([]));
        var st4 := RunMark(text, st3, xs.comma, ',');
        EntriesRefuse(text, st4, xs.more, base, acc + [m]);
      }
    }
  }

  // ---------- documents ----------

  lemma DocumentParts(lead: string, body: string, trail: string, text: string)
    requires text == lead + body + trail && RfcBlank(lead) && RfcBlank(trail)
    ensures SpaceBetween(text, 0, |lead|) && Occurs(text, |lead|, body) && IsDelim(At(text, |lead| + |body|))
  {
    Assoc(lead, body, trail);
    assert forall k :: 0 <= k < |lead| ==> text[k] == lead[k];
    assert forall k :: 0 <= k < |body| ==> text[|lead| + k] == (lead + body)[|lead| + k] == body[k];
    assert trail != "" ==> text[|lead| + |body|] == trail[0];
  }

  /**
   The round trip for RFC 8259 documents: parsing the spelling of a tree returns its meaning
   and stops right behind it, exactly if the tree has no raw DEL and fits the stack.
   */
  lemma DocumentParses(lead: string, c: Cst, trail: string)
    requires Rfc(c) && RfcBlank(lead) && RfcBlank(trail)
    ensures
      var r := Parse(lead + Print(c) + trail);
      if Clean(c) && Depth(c) <= 32 then
        WellFormed(c) && r == Halt(Ok, |lead| + |Print(c)|, Some(Meaning(c)))
      else Refused(r)
  {
    hide Run, Rfc, RfcBlank, SpelledAt, Print, Clean, Depth, Meaning, WellFormed, Occurs;
    var text := lead + Print(c) + trail;
    DocumentParts(lead, Print(c), trail, text);
    if Clean(c) && Depth(c) <= 32 {
      CleanIsSpelled(text, |lead|, c);
      ParseGives(text, |lead|, c);
    } else {
      RunRefuses(text, START, |lead|, c);
    }
  }

  /** The string RFC 8259 gives a body. */
  ghost function RfcText(body: seq<JsonString.Piece>): Option<string>
    requires JsonString.PiecesOk(body)
  {
    JsonString.PiecesOkIff(body);
    JsonString.RfcDecode(body)
  }

  /** The value RFC 8259 gives a document, if it gives it one. */
  ghost function RfcMeaning(c: Cst): Option<Value>
    requires WellFormed(c)
  {
    match c
    case Num(l) => Some(Number(JsonNumber.ExactValue(l)))
    case Str(body) => RfcString(body)
    case OpenStr(_) => None
    case Word(w) => Some(match w case "true" => True case "false" => False case _ => Null)
    case Arr(items, _) =>
      var vs := RfcItemsMeaning(items);
      if vs.None? then None else Some(Array(vs.value))
    case Obj(entries, _) =>
      var ms := RfcEntriesMeaning(entries);
      if ms.None? then None else Some(Object(ms.value))
  }

  ghost function RfcString(body: seq<JsonString.Piece>): Option<Value>
    requires JsonString.PiecesOk(body)
  {
    var s := RfcText(body);
    if s.None? then None else Some(String(s.value))
  }

  ghost function RfcItemsMeaning(xs: Items): Option<seq<Value>>
    requires WellFormedItems(xs)
  {
    match xs
    case NoItems => Some([])
    case Item(_, c, _, more) =>
      var v, vs := RfcMeaning(c), RfcItemsMeaning(more);
      if v.None? || vs.None? then None else Some([v.value] + vs.value)
  }

  ghost function RfcEntriesMeaning(xs: Entries): Option<seq<Member>>
    requires WellFormedEntries(xs)
  {
    match xs
    case NoEntries => Some([])
    case Entry(_, key, _, _, c, _, more) =>
      var k, v, ms := RfcText(key), RfcMeaning(c), RfcEntriesMeaning(more);
      if k.None? || v.None? || ms.None? then None else Some([Member(k.value, v.value)] + ms.value)
  }

  ghost predicate FaithfulString(body: seq<JsonString.Piece>)
    requires JsonString.PiecesOk(body)
  {
    JsonString.NoSurrogates(body) && NoNulEscape(body)
  }

  ghost predicate NoNulEscape(body: seq<JsonString.Piece>) {
    forall k :: 0 <= k < |body| ==> body[k] != JsonString.Unicode("0000")
  }

  ghost predicate FaithfulNumber(l: JsonNumber.Literal)
    requires JsonNumber.WellFormed(l)
  {
    JsonNumber.ExponentFits(l.exponent) || JsonNumber.IsZero(l)
  }

  /** No surrogate escape, no escaped NUL, no exponent of 2^32 or more behind a non-zero number. */
  ghost predicate Faithful(c: Cst)
    requires WellFormed(c)
  {
    match c
    case Num(l) => FaithfulNumber(l)
    case Str(body) => FaithfulString(body)
    case OpenStr(_) => false
    case Word(_) => true
    case Arr(items, _) => FaithfulItems(items)
    case Obj(entries, _) => FaithfulEntries(entries)
  }

  ghost predicate FaithfulItems(xs: Items)
    requires WellFormedItems(xs)
  {
    xs.Item? ==> Faithful(xs.item) && FaithfulItems(xs.more)
  }

  ghost predicate FaithfulEntries(xs: Entries)
    requires WellFormedEntries(xs)
  {
    xs.Entry? ==> FaithfulString(xs.key) && Faithful(xs.item) && FaithfulEntries(xs.more)
  }

  /** Only the escape of code unit zero stores a NUL, and then it stores nothing else. */
  lemma PieceNul(p: JsonString.Piece)
    requires JsonString.PieceOk(p)
    ensures var s := JsonString.PieceBytes(p); if p == JsonString.Unicode("0000") then s == "\0" else NulFree(s)
  {
    if p.Unicode? {
      HexIsZero(p.hex);
      UnitNul(JsonString.HexCode(p.hex));
    } else if p.Escape? {
      assert JsonString.ShortMeaning(p.c) != '\0';
    }
  }

  lemma HexIsZero(hex: string)
    requires JsonString.IsHex4(hex)
    ensures JsonString.HexCode(hex) == 0 <==> hex == "0000"
  {
    assert forall c :: IsXDigit(c) ==> (HexValue(c) == 0 <==> c == '0');
    if JsonString.HexCode(hex) == 0 { assert hex == [hex[0], hex[1], hex[2], hex[3]]; }
  }

  lemma UnitNul(n: nat)
    requires n < 0x10000
    ensures var s := JsonString.UnitBytes(n); if n == 0 then s == "\0" else NulFree(s)
  {
    assert 0 as char == '\0';
  }

  /** The string the source stores, read as a C string, is the string RFC 8259 means. */
  lemma {:induction false} StringIsRfcIff(ps: seq<JsonString.Piece>)
    requires JsonString.PiecesOk(ps)
    ensures RfcText(ps) == Some(StringMeaning(ps)) <==> FaithfulString(ps)
    decreases |ps|
  {
    hide RfcText, FaithfulString, JsonString.PieceBytes, JsonString.PieceOk, JsonString.IsSurrogate, StringMeaning;
    if ps == [] {
      NothingIsRfc();
    } else if JsonString.IsSurrogate(ps[0]) {
      SurrogateFirst(ps);
    } else if ps[0] == JsonString.Unicode("0000") {
      NulFirst(ps);
    } else {
      StringIsRfcIff(ps[1..]);
      PlainFirst(ps);
    }
  }

  lemma NothingIsRfc()
    ensures RfcText([]) == Some(StringMeaning([])) && FaithfulString([])
  {
  }

  lemma SurrogateFirst(ps: seq<JsonString.Piece>)
    requires JsonString.PiecesOk(ps) && ps != [] && JsonString.IsSurrogate(ps[0])
    ensures RfcText(ps) != Some(StringMeaning(ps)) && !FaithfulString(ps)
  {
    hide JsonString.IsSurrogate, JsonString.Decode, JsonString.RfcDecode;
    JsonString.SurrogateStarts(ps);
    CStringStarts(JsonString.Decode(ps));
  }

  lemma NulFirst(ps: seq<JsonString.Piece>)
    requires JsonString.PiecesOk(ps) && ps != [] && ps[0] == JsonString.Unicode("0000")
    ensures RfcText(ps) != Some(StringMeaning(ps)) && !FaithfulString(ps)
  {
    PieceNul(ps[0]);
    assert JsonString.Decode(ps)[0] == '\0';
  }

  lemma Cancel(b: string, x: string, y: string)
    ensures b + x == b + y <==> x == y
  {
    if b + x == b + y {
      assert (b + x)[|b|..] == x && (b + y)[|b|..] == y;
    }
  }

  lemma FaithfulBehind(ps: seq<JsonString.Piece>)
    requires JsonString.PiecesOk(ps) && ps != []
    requires !JsonString.IsSurrogate(ps[0]) && ps[0] != JsonString.Unicode("0000")
    ensures FaithfulString(ps) <==> FaithfulString(ps[1..])
  {
    assert forall k :: 0 < k < |ps| ==> ps[1..][k - 1] == ps[k];
  }

  lemma PlainFirst(ps: seq<JsonString.Piece>)
    requires JsonString.PiecesOk(ps) && ps != []
    requires !JsonString.IsSurrogate(ps[0]) && ps[0] != JsonString.Unicode("0000")
    ensures FaithfulString(ps) <==> FaithfulString(ps[1..])
    ensures RfcText(ps) == Some(StringMeaning(ps)) <==> RfcText(ps[1..]) == Some(StringMeaning(ps[1..]))
  {
    hide FaithfulString, JsonString.PieceBytes, JsonString.RfcPieceBytes, JsonString.IsSurrogate, StringMeaning,
      JsonString.RfcPieceOk, JsonString.PieceOk;
    var rest := ps[1..];
    FaithfulBehind(ps);
    MeaningBehind(ps);
    JsonString.PieceMeans(ps[0]);
    TextBehind(ps);
    if RfcText(rest).Some? {
      Cancel(JsonString.PieceBytes(ps[0]), RfcText(rest).value, StringMeaning(rest));
    }
  }

  lemma TextBehind(ps: seq<JsonString.Piece>)
    requires JsonString.PiecesOk(ps) && ps != [] && !JsonString.IsSurrogate(ps[0])
    ensures JsonString.RfcPieceOk(ps[0])
    ensures RfcText(ps) == if RfcText(ps[1..]).None? then None
                           else Some(JsonString.RfcPieceBytes(ps[0]) + RfcText(ps[1..]).value)
  {
    hide JsonString.RfcPieceBytes, JsonString.IsSurrogate, JsonString.RfcPieceOk, JsonString.PieceOk;
    JsonString.PiecesOkIff(ps);
    JsonString.PiecesOkIff(ps[1..]);
  }

  lemma MeaningBehind(ps: seq<JsonString.Piece>)
    requires JsonString.PiecesOk(ps) && ps != [] && ps[0] != JsonString.Unicode("0000")
    ensures StringMeaning(ps) == JsonString.PieceBytes(ps[0]) + StringMeaning(ps[1..])
  {
    hide JsonString.PieceBytes, CString, NulFree;
    PieceNul(ps[0]);
    CStringBehind(JsonString.PieceBytes(ps[0]), JsonString.Decode(ps[1..]));
  }

  /** What parsing returns is the RFC 8259 value of a document exactly if the document is faithful. */
  lemma {:induction false} MeaningIsRfcIff(c: Cst)
    requires WellFormed(c) && Rfc(c)
    ensures RfcMeaning(c) == Some(Meaning(c)) <==> Faithful(c)
    decreases c
  {
    hide Print, FaithfulString, FaithfulNumber, StringMeaning;
    match c
    case Num(l) => JsonNumber.ValueIsExactIff(l); NumberFaithful(l);
    case Str(body) => StringIsRfcIff(body);
    case Word(_) =>
    case Arr(items, _) => ItemsMeaningIsRfcIff(items);
    case Obj(entries, _) => EntriesMeaningIsRfcIff(entries);
  }

  lemma NumberFaithful(l: JsonNumber.Literal)
    requires JsonNumber.WellFormed(l)
    ensures JsonNumber.Value(l) == JsonNumber.ExactValue(l) <==> FaithfulNumber(l)
  {
    hide JsonNumber.Value, JsonNumber.ExactValue;
    JsonNumber.ValueIsExactIff(l);
  }

  lemma {:induction false} ItemsMeaningIsRfcIff(xs: Items)
    requires WellFormedItems(xs) && RfcItems(xs)
    ensures RfcItemsMeaning(xs) == Some(ItemsMeaning(xs)) <==> FaithfulItems(xs)
    decreases xs
  {
    hide Rfc, WellFormed, Meaning, RfcMeaning, Faithful;
    if xs.Item? {
      MeaningIsRfcIff(xs.item);
      ItemsMeaningIsRfcIff(xs.more);
      if RfcItemsMeaning(xs).Some? {
        ConsInjective(RfcMeaning(xs.item).value, Meaning(xs.item), RfcItemsMeaning(xs.more).value,
          ItemsMeaning(xs.more));
      }
    }
  }

  lemma {:induction false} EntriesMeaningIsRfcIff(xs: Entries)
    requires WellFormedEntries(xs) && RfcEntries(xs)
    ensures RfcEntriesMeaning(xs) == Some(EntriesMeaning(xs)) <==> FaithfulEntries(xs)
    decreases xs
  {
    hide Rfc, WellFormed, Meaning, RfcMeaning, Faithful, FaithfulString, StringMeaning, RfcText;
    if xs.Entry? {
      StringIsRfcIff(xs.key);
      MeaningIsRfcIff(xs.item);
      EntriesMeaningIsRfcIff(xs.more);
      if RfcEntriesMeaning(xs).Some? {
        ConsInjective(Member(RfcText(xs.key).value, RfcMeaning(xs.item).value),
                      Member(StringMeaning(xs.key), Meaning(xs.item)),
                      RfcEntriesMeaning(xs.more).value, EntriesMeaning(xs.more));
      }
    }
  }

  lemma ConsInjective<T>(a: T, b: T, x: seq<T>, y: seq<T>)
    ensures [a] + x == [b] + y <==> a == b && x == y
  {
    if [a] + x == [b] + y {
      assert a == ([a] + x)[0] && b == ([b] + y)[0];
      assert x == ([a] + x)[1..] && y == ([b] + y)[1..];
    }
  }

  /**
   The smallest documents that come back changed: a clef outside the first plane, an escaped
   NUL, and a number whose exponent wraps.
   */
  lemma ChangedDocuments()
    ensures var clef := Str([JsonString.Unicode("D834"), JsonString.Unicode("DD1E")]);
      Rfc(clef) && WellFormed(clef) && RfcMeaning(clef) != Some(Meaning(clef))
    ensures var nul := Str([JsonString.Unicode("0000")]);
      Rfc(nul) && WellFormed(nul) && RfcMeaning(nul) != Some(Meaning(nul))
    ensures var big := Num(JsonNumber.WRAPPED);
      Rfc(big) && WellFormed(big) && Meaning(big) == Number(1.0) && RfcMeaning(big) != Some(Meaning(big))
  {
    hide RfcMeaning, Meaning, FaithfulString, JsonNumber.Value, JsonNumber.ExactValue;
    var a, b, z := JsonString.Unicode("D834"), JsonString.Unicode("DD1E"), JsonString.Unicode("0000");
    SmallPieces();
    JsonString.PiecesOkIff([a, b]);
    JsonString.PiecesOkIff([z]);
    MeaningIsRfcIff(Str([a, b]));
    MeaningIsRfcIff(Str([z]));
    ChangedNumber();
  }

  lemma SmallPieces()
    ensures var ps := [JsonString.Unicode("D834"), JsonString.Unicode("DD1E")];
      JsonString.PiecesOk(ps) && !FaithfulString(ps)
    ensures var ps := [JsonString.Unicode("0000")];
      JsonString.PiecesOk(ps) && !FaithfulString(ps)
  {
    var a, b, z := JsonString.Unicode("D834"), JsonString.Unicode("DD1E"), JsonString.Unicode("0000");
    assert JsonString.RfcUnit(a.hex) == 0xD834 && JsonString.IsSurrogate([a, b][0]);
    assert [z][0] == JsonString.Unicode("0000");
  }

  lemma ChangedNumber()
    ensures var big := Num(JsonNumber.WRAPPED);
      Rfc(big) && WellFormed(big) && Meaning(big) == Number(1.0) && RfcMeaning(big) != Some(Meaning(big))
  {
    hide JsonNumber.Value, JsonNumber.ExactValue;
    JsonNumber.WrappedExample();
  }
}
