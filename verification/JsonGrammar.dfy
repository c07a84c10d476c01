/**
 The language `jsonParse` accepts, as concrete syntax trees: every token, every piece of
 white space and every optional comma and colon. `Parse` succeeds on a text exactly if a
 tree spells its front, and returns what the tree denotes.
 */
module JsonGrammar {
  import opened Options
  import opened Texts
  import opened JsonChars
  import opened JsonMachine
  import JsonNumber
  import JsonString

  datatype Cst =
    | Num(literal: JsonNumber.Literal)
    | Str(body: seq<JsonString.Piece>)
    | OpenStr(body: seq<JsonString.Piece>)
    | Word(word: string)
    | Arr(items: Items, end: string)
    | Obj(entries: Entries, end: string)

  /** The items of an array; a comma with the white space before it may follow each, and may be missing. */
  datatype Items = NoItems | Item(ws: string, item: Cst, comma: Option<string>, more: Items)

  /** The members of an object; the colon may be missing as well. */
  datatype Entries =
    | NoEntries
    | Entry(ws: string, key: seq<JsonString.Piece>, colon: Option<string>, gap: string, item: Cst,
            comma: Option<string>, more: Entries)

  // ---------- spelling ----------

  function PrintMark(mark: Option<string>, c: char): string {
    if mark.None? then "" else mark.value + [c]
  }

  function PrintString(body: seq<JsonString.Piece>): string {
    "\"" + JsonString.SpellPieces(body) + "\""
  }

  function Print(c: Cst): string {
    match c
    case Num(l) => JsonNumber.Spell(l)
    case Str(body) => PrintString(body)
    case OpenStr(body) => "\"" + JsonString.SpellPieces(body)
    case Word(w) => w
    case Arr(items, end) => "[" + PrintItems(items) + end + "]"
    case Obj(entries, end) => "{" + PrintEntries(entries) + end + "}"
  }

  function PrintItems(xs: Items): string {
    match xs
    case NoItems => ""
    case Item(ws, c, comma, more) => ws + Print(c) + PrintMark(comma, ',') + PrintItems(more)
  }

  function PrintEntries(xs: Entries): string {
    match xs
    case NoEntries => ""
    case Entry(ws, key, colon, gap, c, comma, more) =>
      ws + PrintString(key) + PrintMark(colon, ':') + gap + Print(c) + PrintMark(comma, ',') + PrintEntries(more)
  }

  /** Whether a comma stands behind the last item; nothing may be missing where there is none. */
  predicate ItemsMarked(xs: Items) {
    match xs
    case NoItems => true
    case Item(_, _, comma, more) => if more.NoItems? then comma.Some? else ItemsMarked(more)
  }

  predicate EntriesMarked(xs: Entries) {
    match xs
    case NoEntries => true
    case Entry(_, _, _, _, _, comma, more) => if more.NoEntries? then comma.Some? else EntriesMarked(more)
  }

  // How many characters the last token has of a tree, of items with their commas and of members.

  function Tail(c: Cst): nat {
    if c.Arr? || c.Obj? then 1 else |Print(c)|
  }

  function ItemsTail(xs: Items): nat {
    match xs
    case NoItems => 0
    case Item(_, c, comma, more) => if more.Item? then ItemsTail(more) else if comma.Some? then 1 else Tail(c)
  }

  function EntriesTail(xs: Entries): nat {
    match xs
    case NoEntries => 0
    case Entry(_, _, _, _, c, comma, more) =>
      if more.Entry? then EntriesTail(more) else if comma.Some? then 1 else Tail(c)
  }

  // ---------- meaning ----------

  function StringMeaning(body: seq<JsonString.Piece>): string
    requires JsonString.PiecesOk(body)
  {
    CString(JsonString.Decode(body))
  }

  /** An unclosed string keeps, behind what was decoded, the characters the decoder has not written over. */
  function OpenMeaning(body: seq<JsonString.Piece>): string
    requires JsonString.PiecesOk(body)
  {
    var d := JsonString.Decode(body);
    var s := JsonString.SpellPieces(body);
    CString(d + if |d| <= |s| then s[|d|..] else "")
  }

  function WordMeaning(w: string): Value {
    if w == "true" then True else if w == "false" then False else Null
  }

  function Meaning(c: Cst): Value
    requires WellFormed(c)
  {
    match c
    case Num(l) => Number(JsonNumber.Value(l))
    case Str(body) => String(StringMeaning(body))
    case OpenStr(body) => String(OpenMeaning(body))
    case Word(w) => WordMeaning(w)
    case Arr(items, _) => Array(ItemsMeaning(items))
    case Obj(entries, _) => Object(EntriesMeaning(entries))
  }

  function ItemsMeaning(xs: Items): seq<Value>
    requires WellFormedItems(xs)
  {
    match xs
    case NoItems => []
    case Item(_, c, _, more) => [Meaning(c)] + ItemsMeaning(more)
  }

  function EntriesMeaning(xs: Entries): seq<Member>
    requires WellFormedEntries(xs)
  {
    match xs
    case NoEntries => []
    case Entry(_, key, _, _, c, _, more) => [Member(StringMeaning(key), Meaning(c))] + EntriesMeaning(more)
  }

  // ---------- which trees are trees of the language ----------

  predicate IsWord(w: string) {
    w == "true" || w == "false" || w == "null"
  }

  ghost predicate MarkOk(mark: Option<string>) {
    mark.Some? ==> AllSpace(mark.value)
  }

  ghost predicate LiteralOk(l: JsonNumber.Literal) {
    && JsonNumber.WellFormed(l)
    && (l.whole != "" || (l.negative && l.fraction.Some?))
  }

  ghost predicate WellFormed(c: Cst) {
    match c
    case Num(l) => LiteralOk(l)
    case Str(body) => JsonString.PiecesOk(body)
    case OpenStr(body) => JsonString.PiecesOk(body)
    case Word(w) => IsWord(w)
    case Arr(items, end) => WellFormedItems(items) && AllSpace(end)
    case Obj(entries, end) => WellFormedEntries(entries) && AllSpace(end)
  }

  ghost predicate WellFormedItems(xs: Items) {
    match xs
    case NoItems => true
    case Item(ws, c, comma, more) => AllSpace(ws) && WellFormed(c) && MarkOk(comma) && WellFormedItems(more)
  }

  ghost predicate WellFormedEntries(xs: Entries) {
    match xs
    case NoEntries => true
    case Entry(ws, key, colon, gap, c, comma, more) =>
      && AllSpace(ws) && JsonString.PiecesOk(key) && MarkOk(colon) && AllSpace(gap)
      && WellFormed(c) && MarkOk(comma) && WellFormedEntries(more)
  }

  function Depth(c: Cst): nat {
    match c
    case Arr(items, _) => 1 + ItemsDepth(items)
    case Obj(entries, _) => 1 + EntriesDepth(entries)
    case _ => 0
  }

  function Max(a: nat, b: nat): nat { if a < b then b else a }

  function ItemsDepth(xs: Items): nat {
    match xs
    case NoItems => 0
    case Item(_, c, _, more) => Max(Depth(c), ItemsDepth(more))
  }

  function EntriesDepth(xs: Entries): nat {
    match xs
    case NoEntries => 0
    case Entry(_, _, _, _, c, _, more) => Max(Depth(c), EntriesDepth(more))
  }

  // ---------- a tree spelled at a position of a text ----------

  ghost predicate MarkAt(text: string, i: nat, mark: Option<string>, c: char) {
    Occurs(text, i, PrintMark(mark, c)) && MarkOk(mark)
  }

  /** White space and then the character `c`. */
  ghost predicate EndAt(text: string, i: nat, ws: string, c: char) {
    Occurs(text, i, ws) && AllSpace(ws) && At(text, i + |ws|) == c
  }

  ghost predicate StringAt(text: string, i: nat, body: seq<JsonString.Piece>) {
    && At(text, i) == '\"' && JsonString.PiecesOk(body)
    && Occurs(text, i + 1, JsonString.SpellPieces(body))
    && At(text, i + 1 + |JsonString.SpellPieces(body)|) == '\"'
    && IsDelim(At(text, i + |PrintString(body)|))
  }

  /** `c` is spelled at `i`, and its scalars are followed by delimiters. */
  ghost predicate SpelledAt(text: string, i: nat, c: Cst)
    decreases c
  {
    match c
    case Num(l) =>
      LiteralOk(l) && Occurs(text, i, JsonNumber.Spell(l)) && IsDelim(At(text, i + |JsonNumber.Spell(l)|))
    case Str(body) => StringAt(text, i, body)
    case OpenStr(body) =>
      && At(text, i) == '\"' && JsonString.PiecesOk(body)
      && Occurs(text, i + 1, JsonString.SpellPieces(body)) && |text| == i + |Print(c)|
    case Word(w) => IsWord(w) && Occurs(text, i, w) && IsDelim(At(text, i + |w|))
    case Arr(items, end) =>
      && At(text, i) == '[' && ItemsAt(text, i + 1, items)
      && EndAt(text, i + 1 + |PrintItems(items)|, end, ']')
    case Obj(entries, end) =>
      && At(text, i) == '{' && EntriesAt(text, i + 1, entries)
      && EndAt(text, i + 1 + |PrintEntries(entries)|, end, '}')
  }

  // Where the parts of an item or member that starts at `i` start.

  function ItemValue(i: nat, xs: Items): nat
    requires xs.Item?
  {
    i + |xs.ws|
  }

  function ItemMark(i: nat, xs: Items): nat
    requires xs.Item?
  {
    ItemValue(i, xs) + |Print(xs.item)|
  }

  function ItemNext(i: nat, xs: Items): nat
    requires xs.Item?
  {
    ItemMark(i, xs) + |PrintMark(xs.comma, ',')|
  }

  ghost predicate ItemsAt(text: string, i: nat, xs: Items)
    decreases xs
  {
    xs.Item? ==>
      && Occurs(text, i, xs.ws) && AllSpace(xs.ws)
      && SpelledAt(text, ItemValue(i, xs), xs.item)
      && MarkAt(text, ItemMark(i, xs), xs.comma, ',')
      && ItemsAt(text, ItemNext(i, xs), xs.more)
  }

  function EntryColon(i: nat, xs: Entries): nat
    requires xs.Entry?
  {
    i + |xs.ws| + |PrintString(xs.key)|
  }

  function EntryGap(i: nat, xs: Entries): nat
    requires xs.Entry?
  {
    EntryColon(i, xs) + |PrintMark(xs.colon, ':')|
  }

  function EntryValue(i: nat, xs: Entries): nat
    requires xs.Entry?
  {
    EntryGap(i, xs) + |xs.gap|
  }

  function EntryMark(i: nat, xs: Entries): nat
    requires xs.Entry?
  {
    EntryValue(i, xs) + |Print(xs.item)|
  }

  function EntryNext(i: nat, xs: Entries): nat
    requires xs.Entry?
  {
    EntryMark(i, xs) + |PrintMark(xs.comma, ',')|
  }

  ghost predicate EntriesAt(text: string, i: nat, xs: Entries)
    decreases xs
  {
    xs.Entry? ==>
      && Occurs(text, i, xs.ws) && AllSpace(xs.ws)
      && StringAt(text, i + |xs.ws|, xs.key)
      && MarkAt(text, EntryColon(i, xs), xs.colon, ':')
      && Occurs(text, EntryGap(i, xs), xs.gap) && AllSpace(xs.gap)
      && SpelledAt(text, EntryValue(i, xs), xs.item)
      && MarkAt(text, EntryMark(i, xs), xs.comma, ',')
      && EntriesAt(text, EntryNext(i, xs), xs.more)
  }
}
