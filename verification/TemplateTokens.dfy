/**
 The tokenizer of template/NLTemplate.cpp: the tags it knows, its one token of lookahead,
 and the proof that tokens and texts determine one another.
 */
module TemplateTokens {
  import opened Options
  import opened Texts

  datatype Token = End | Text(text: string) | BlockStart(name: string) | BlockEnd | Include(name: string)
    | Var(name: string)

  predicate IsNameChar(c: char) {
    'a' <= c <= 'z' || 'A' <= c <= 'Z' || '0' <= c <= '9' || c == '_' || c == '/' || c == '.'
  }

  const LETTERS := "abcdefghijklmnopqrstuvwxyz"
  const CAPITALS := "ABCDEFGHIJKLMNOPQRSTUVWXYZ"

  /** The names of blocks, variables and files: letters, digits, and three more characters. */
  ghost predicate IsName(s: string) {
    forall k :: 0 <= k < |s| ==> s[k] in LETTERS || s[k] in CAPITALS || s[k] in "0123456789_/."
  }

  lemma LetterIff(c: char)
    ensures 'a' <= c <= 'z' <==> c in LETTERS
  {
    if 'a' <= c <= 'z' { assert LETTERS[c as int - 'a' as int] == c; }
  }

  lemma CapitalIff(c: char)
    ensures 'A' <= c <= 'Z' <==> c in CAPITALS
  {
    if 'A' <= c <= 'Z' { assert CAPITALS[c as int - 'A' as int] == c; }
  }

  lemma OtherIff(c: char)
    ensures '0' <= c <= '9' || c == '_' || c == '/' || c == '.' <==> c in "0123456789_/."
  {
    var others := "0123456789_/.";
    if '0' <= c <= '9' { assert others[c as int - '0' as int] == c; }
    assert others[10] == '_' && others[11] == '/' && others[12] == '.';
  }

  lemma NameCharIff(c: char)
    ensures IsNameChar(c) <==> c in LETTERS || c in CAPITALS || c in "0123456789_/."
  {
    LetterIff(c);
    CapitalIff(c);
    OtherIff(c);
  }

  lemma NameIff(s: string)
    ensures IsName(s) <==> forall k :: 0 <= k < |s| ==> IsNameChar(s[k])
  {
    hide IsNameChar;
    forall c ensures IsNameChar(c) <==> c in LETTERS || c in CAPITALS || c in "0123456789_/." { NameCharIff(c); }
  }

  /** `strncmp` with a text that has no terminator in it. */
  predicate StartsAt(text: string, i: nat, p: string) {
    i + |p| <= |text| && text[i..i + |p|] == p
  }

  lemma StartsIffOccurs(text: string, i: nat, p: string)
    ensures StartsAt(text, i, p) <==> Occurs(text, i, p)
  {
    if Occurs(text, i, p) { SliceIs(text, i, p); }
    if StartsAt(text, i, p) { SliceOccurs(text, i, i + |p|); }
  }

  function NameEnd(text: string, i: nat): (j: nat)
    requires i <= |text|
    ensures i <= j <= |text| && forall k :: i <= k < j ==> IsNameChar(text[k])
    ensures j < |text| ==> !IsNameChar(text[j])
    decreases |text| - i
  {
    if i < |text| && IsNameChar(text[i]) then NameEnd(text, i + 1) else i
  }

  lemma {:induction false} NameEndIs(text: string, i: nat, j: nat)
    requires i <= j <= |text| && (forall k :: i <= k < j ==> IsNameChar(text[k]))
      && (j < |text| ==> !IsNameChar(text[j]))
    ensures NameEnd(text, i) == j
    decreases j - i
  {
    if i < j { NameEndIs(text, i + 1, j); }
  }

  // ---------- tags ----------

  /** A name between an opening and a closing text, found at position `i`. */
  function ParamAt(open: string, close: string, text: string, i: nat): Option<string> {
    if StartsAt(text, i, open) then
      var j := NameEnd(text, i + |open|);
      if StartsAt(text, j, close) then Some(text[i + |open|..j]) else None
    else None
  }

  const VAR_OPEN := "{{ "
  const VAR_CLOSE := " }}"
  const BLOCK_OPEN := "{% block "
  const INCLUDE_OPEN := "{% include "
  const TAG_CLOSE := " %}"
  const END_BLOCK := "{% endblock %}"

  /** The tag that begins at a position, in the order in which the source tries them. */
  function TagAt(text: string, i: nat): Option<Token> {
    match ParamAt(BLOCK_OPEN, TAG_CLOSE, text, i)
    case Some(name) => Some(BlockStart(name))
    case None =>
      if StartsAt(text, i, END_BLOCK) then Some(BlockEnd)
      else
        match ParamAt(INCLUDE_OPEN, TAG_CLOSE, text, i)
        case Some(name) => Some(Include(name))
        case None =>
          match ParamAt(VAR_OPEN, VAR_CLOSE, text, i)
          case Some(name) => Some(Var(name))
          case None => None
  }

  function Spelling(t: Token): string {
    match t
    case End => ""
    case Text(text) => text
    case BlockStart(name) => "{% block " + (name + " %}")
    case BlockEnd => "{% endblock %}"
    case Include(name) => "{% include " + (name + " %}")
    case Var(name) => "{{ " + (name + " }}")
  }

  ghost predicate IsTag(t: Token) {
    match t
    case End => false
    case Text(_) => false
    case BlockStart(name) => IsName(name)
    case BlockEnd => true
    case Include(name) => IsName(name)
    case Var(name) => IsName(name)
  }

  lemma NameOccurs(close: string, text: string, k: nat, name: string)
    requires k <= |text| && close != "" && !IsNameChar(close[0])
    requires IsName(name) && Occurs(text, k, name) && Occurs(text, k + |name|, close)
    ensures NameEnd(text, k) == k + |name| && text[k..k + |name|] == name
  {
    hide IsName;
    NameIff(name);
    SliceIs(text, k, name);
    OccursAt(text, k + |name|, close, 0);
    assert forall n :: k <= n < k + |name| ==> text[n] == name[n - k];
    NameEndIs(text, k, k + |name|);
  }

  lemma ParamIffOccurs(open: string, close: string, text: string, i: nat, name: string)
    requires close != "" && !IsNameChar(close[0])
    ensures ParamAt(open, close, text, i) == Some(name) <==> IsName(name) && Occurs(text, i, open + (name + close))
  {
    hide Occurs, StartsAt, IsName, IsNameChar;
    NameIff(name);
    OccursConcat(text, i, open, name + close);
    OccursConcat(text, i + |open|, name, close);
    StartsIffOccurs(text, i, open);
    var k := i + |open|;
    if StartsAt(text, i, open) {
      OccursFits(text, i, open);
      var j := NameEnd(text, k);
      StartsIffOccurs(text, j, close);
      SliceOccurs(text, k, j);
      if IsName(name) && Occurs(text, k, name) && Occurs(text, k + |name|, close) {
        NameOccurs(close, text, k, name);
      }
    }
  }

  lemma OccursFits(text: string, i: nat, p: string)
    requires Occurs(text, i, p)
    ensures i + |p| <= |text|
  {
  }

  lemma OpensApart(text: string, i: nat)
    ensures !(Occurs(text, i, BLOCK_OPEN) && Occurs(text, i, END_BLOCK))
    ensures !(Occurs(text, i, BLOCK_OPEN) && Occurs(text, i, INCLUDE_OPEN))
    ensures !(Occurs(text, i, END_BLOCK) && Occurs(text, i, INCLUDE_OPEN))
    ensures Occurs(text, i, VAR_OPEN) ==>
              !Occurs(text, i, BLOCK_OPEN) && !Occurs(text, i, END_BLOCK) && !Occurs(text, i, INCLUDE_OPEN)
  {
    assert BLOCK_OPEN[3] == 'b' && END_BLOCK[3] == 'e' && INCLUDE_OPEN[3] == 'i';
    assert BLOCK_OPEN[1] == '%' && END_BLOCK[1] == '%' && INCLUDE_OPEN[1] == '%' && VAR_OPEN[1] == '{';
  }

  /** A tag is found at a position exactly when its spelling, with a proper name, stands there. */
  lemma TagIffOccurs(text: string, i: nat, t: Token)
    ensures TagAt(text, i) == Some(t) <==> IsTag(t) && Occurs(text, i, Spelling(t))
  {
    hide ParamAt, Occurs, IsName;
    OpensApart(text, i);
    StartsIffOccurs(text, i, END_BLOCK);
    ParamOpens(BLOCK_OPEN, TAG_CLOSE, text, i);
    ParamOpens(INCLUDE_OPEN, TAG_CLOSE, text, i);
    ParamOpens(VAR_OPEN, VAR_CLOSE, text, i);
    match t
    case BlockStart(name) =>
      ParamIffOccurs(BLOCK_OPEN, TAG_CLOSE, text, i, name);
      OccursConcat(text, i, BLOCK_OPEN, name + TAG_CLOSE);
    case Include(name) =>
      ParamIffOccurs(INCLUDE_OPEN, TAG_CLOSE, text, i, name);
      OccursConcat(text, i, INCLUDE_OPEN, name + TAG_CLOSE);
    case Var(name) =>
      ParamIffOccurs(VAR_OPEN, VAR_CLOSE, text, i, name);
      OccursConcat(text, i, VAR_OPEN, name + VAR_CLOSE);
    case _ =>
  }

  lemma ParamOpens(open: string, close: string, text: string, i: nat)
    ensures ParamAt(open, close, text, i).Some? ==> Occurs(text, i, open)
  {
    StartsIffOccurs(text, i, open);
  }

  // ---------- texts into tokens ----------

  /** The first position from `i` on where a tag begins, or the end. */
  function TextEnd(text: string, i: nat): (j: nat)
    requires i <= |text|
    ensures i <= j <= |text|
    ensures j < |text| ==> TagAt(text, j).Some?
    ensures forall k :: i <= k < j ==> TagAt(text, k).None?
    decreases |text| - i
  {
    if i == |text| || TagAt(text, i).Some? then i else TextEnd(text, i + 1)
  }

  lemma TagFits(text: string, i: nat)
    requires i <= |text| && TagAt(text, i).Some?
    ensures |Spelling(TagAt(text, i).value)| >= 6 && i + |Spelling(TagAt(text, i).value)| <= |text|
  {
    TagIffOccurs(text, i, TagAt(text, i).value);
  }

  function Tokens(text: string, i: nat): seq<Token>
    requires i <= |text|
    decreases |text| - i
  {
    if i == |text| then []
    else
      match TagAt(text, i)
      case Some(t) => TagFits(text, i); [t] + Tokens(text, i + |Spelling(t)|)
      case None => var j := TextEnd(text, i); [Text(text[i..j])] + Tokens(text, j)
  }

  function SpellAll(ts: seq<Token>): string {
    if ts == [] then "" else Spelling(ts[0]) + SpellAll(ts[1..])
  }

  ghost predicate IsTagFree(s: string) {
    forall k :: 0 <= k < |s| ==> TagAt(s, k).None?
  }

  /** What a token of a token list must be like. */
  ghost predicate IsToken(t: Token) {
    IsTag(t) || (t.Text? && t.text != "" && IsTagFree(t.text))
  }

  /** Texts are not empty, not next to one another and free of tags; names are made of name characters. */
  ghost predicate IsCanonical(ts: seq<Token>) {
    && (forall k :: 0 <= k < |ts| ==> IsToken(ts[k]))
    && forall k :: 0 <= k < |ts| - 1 ==> !(ts[k].Text? && ts[k + 1].Text?)
  }

  lemma CanonicalCons(t: Token, ts: seq<Token>)
    requires IsToken(t) && IsCanonical(ts) && !(t.Text? && ts != [] && ts[0].Text?)
    ensures IsCanonical([t] + ts)
  {
    forall k | 0 <= k < |ts| ensures !(([t] + ts)[k].Text? && ([t] + ts)[k + 1].Text?) {
      if k > 0 { assert !(ts[k - 1].Text? && ts[k].Text?); }
    }
  }

  /** A tag in a slice is a tag of the whole text. */
  lemma TagOfSlice(text: string, i: nat, j: nat, k: nat)
    requires i <= j <= |text| && k <= j - i && TagAt(text[i..j], k).Some?
    ensures TagAt(text, i + k) == TagAt(text[i..j], k)
  {
    hide TagAt, IsTag, Spelling;
    var s := text[i..j];
    var t := TagAt(s, k).value;
    var p := Spelling(t);
    TagIffOccurs(s, k, t);
    assert Occurs(text, i + k, p) by {
      forall n | 0 <= n < |p| ensures text[i + k + n] == p[n] { assert s[k + n] == p[n]; }
    }
    TagIffOccurs(text, i + k, t);
  }

  lemma PieceIsTagFree(text: string, i: nat, j: nat)
    requires i <= j <= |text| && forall k :: i <= k < j ==> TagAt(text, k).None?
    ensures IsTagFree(text[i..j])
  {
    hide TagAt;
    forall k | 0 <= k < j - i ensures TagAt(text[i..j], k).None? {
      if TagAt(text[i..j], k).Some? { TagOfSlice(text, i, j, k); }
    }
  }

  lemma FirstTag(text: string, i: nat, t: Token)
    requires i < |text| && TagAt(text, i) == Some(t)
    ensures i + |Spelling(t)| <= |text| && IsTag(t) && text[i..i + |Spelling(t)|] == Spelling(t) != ""
    ensures Tokens(text, i) == [t] + Tokens(text, i + |Spelling(t)|)
  {
    hide TagAt, Spelling;
    TagFits(text, i);
    TagIffOccurs(text, i, t);
    SliceIs(text, i, Spelling(t));
  }

  lemma FirstText(text: string, i: nat)
    requires i < |text| && TagAt(text, i).None?
    ensures var j := TextEnd(text, i);
      i < j && IsTagFree(text[i..j]) && Tokens(text, i) == [Text(text[i..j])] + Tokens(text, j)
  {
    hide TagAt;
    PieceIsTagFree(text, i, TextEnd(text, i));
  }

  lemma FirstToken(text: string, i: nat) returns (t: Token, j: nat)
    requires i < |text|
    ensures i < j <= |text| && IsToken(t) && text[i..j] == Spelling(t)
    ensures Tokens(text, i) == [t] + Tokens(text, j)
    ensures t.Text? <==> TagAt(text, i).None?
    ensures t.Text? && j < |text| ==> TagAt(text, j).Some?
  {
    hide TagAt, Tokens;
    match TagAt(text, i) {
      case Some(tag) =>
        FirstTag(text, i, tag);
        t, j := tag, i + |Spelling(tag)|;
      case None =>
        FirstText(text, i);
        j := TextEnd(text, i);
        t := Text(text[i..j]);
    }
  }

  lemma SpellCons(t: Token, ts: seq<Token>)
    ensures SpellAll([t] + ts) == Spelling(t) + SpellAll(ts)
  {
    assert ([t] + ts)[1..] == ts;
  }

  lemma SliceSplits(text: string, i: nat, j: nat)
    requires i <= j <= |text|
    ensures text[i..j] + text[j..] == text[i..]
  {
  }

  /** No text follows a text: behind it stands a tag or nothing. */
  lemma {:induction false} TokensSpell(text: string, i: nat)
    requires i <= |text|
    ensures SpellAll(Tokens(text, i)) == text[i..] && IsCanonical(Tokens(text, i))
    ensures i < |text| && TagAt(text, i).Some? ==> Tokens(text, i) != [] && !Tokens(text, i)[0].Text?
    decreases |text| - i
  {
    hide TagAt, IsToken, Spelling;
    if i < |text| {
      var t, j := FirstToken(text, i);
      TokensSpell(text, j);
      CanonicalCons(t, Tokens(text, j));
      SliceSplits(text, i, j);
      SpellCons(t, Tokens(text, j));
    }
  }

  // ---------- tokens into texts ----------

  /**
   Every tag opens with a brace and a brace or percent sign; a brace behind its first character is
   followed by a blank.
   */
  lemma BracesOfTag(t: Token)
    requires IsTag(t)
    ensures var p := Spelling(t);
      && |p| >= 3 && p[0] == '{' && (p[1] == '{' || p[1] == '%') && p[2] == ' '
      && forall n :: 1 <= n < |p| && p[n] == '{' ==> n == 1
  {
    var p := Spelling(t);
    match t
    case BlockStart(name) => NoBraces(BLOCK_OPEN, name, TAG_CLOSE);
    case Include(name) => NoBraces(INCLUDE_OPEN, name, TAG_CLOSE);
    case Var(name) => NoBraces(VAR_OPEN, name, VAR_CLOSE);
    case _ =>
  }

  lemma NoBraces(open: string, name: string, close: string)
    requires |open| >= 3 && (forall n :: 2 <= n < |open| ==> open[n] != '{') && '{' !in close && IsName(name)
    ensures forall n :: 2 <= n < |open + (name + close)| ==> (open + (name + close))[n] != '{'
    ensures forall n :: 0 <= n < |open| ==> (open + (name + close))[n] == open[n]
  {
    hide IsName;
    NameIff(name);
    var p := open + (name + close);
    forall n | 2 <= n < |p| ensures p[n] != '{' {
      if |open| <= n < |open| + |name| { assert p[n] == name[n - |open|]; }
      else if n >= |open| { assert p[n] == close[n - |open| - |name|]; }
    }
  }

  lemma {:induction false} TextEndIs(text: string, i: nat, j: nat)
    requires i <= j <= |text| && forall k :: i <= k < j ==> TagAt(text, k).None?
    requires j < |text| ==> TagAt(text, j).Some?
    ensures TextEnd(text, i) == j
    decreases j - i
  {
    if i < j { TextEndIs(text, i + 1, j); }
  }

  lemma TagWithin(text: string, i: nat, s: string, k: nat, g: Token)
    requires Occurs(text, i, s) && IsTag(g) && Occurs(text, i + k, Spelling(g)) && k + |Spelling(g)| <= |s|
    ensures TagAt(s, k) == Some(g)
  {
    hide TagAt, IsTag, Spelling;
    var p := Spelling(g);
    forall n | 0 <= n < |p| ensures s[k + n] == p[n] {
      assert text[i + (k + n)] == s[k + n];
      assert text[i + k + n] == p[n];
    }
    TagIffOccurs(s, k, g);
  }

  /** Tags do not overlap. */
  lemma TagsApart(text: string, k: nat, g: Token, j: nat, h: Token)
    requires IsTag(g) && Occurs(text, k, Spelling(g)) && IsTag(h) && Occurs(text, j, Spelling(h)) && k < j
    ensures k + |Spelling(g)| <= j
  {
    hide Occurs, Spelling, IsTag;
    BracesOfTag(g);
    BracesOfTag(h);
    if j < k + |Spelling(g)| {
      OccursAt(text, k, Spelling(g), j - k);
      OccursAt(text, j, Spelling(h), 0);
      OccursAt(text, j, Spelling(h), 1);
      OccursAt(text, k, Spelling(g), 2);
    }
  }

  /** No tag begins inside a tag-free text, not even one that would need the tag behind it. */
  lemma NoTagInText(text: string, i: nat, s: string, next: Token, k: nat)
    requires Occurs(text, i, s) && IsTagFree(s) && i <= k < i + |s|
    requires i + |s| == |text| || (IsTag(next) && Occurs(text, i + |s|, Spelling(next)))
    ensures TagAt(text, k).None?
  {
    hide TagAt, IsTag, Spelling;
    if TagAt(text, k).Some? {
      var g := TagAt(text, k).value;
      var p := Spelling(g);
      var j := i + |s|;
      TagIffOccurs(text, k, g);
      if k + |p| <= j {
        TagWithin(text, i, s, k - i, g);
      } else {
        OccursFits(text, k, p);
        TagsApart(text, k, g, j, next);
      }
    }
  }

  lemma CanonicalTail(ts: seq<Token>)
    requires IsCanonical(ts) && ts != []
    ensures IsCanonical(ts[1..]) && IsToken(ts[0])
    ensures |ts| > 1 && ts[0].Text? ==> IsTag(ts[1])
  {
    var us := ts[1..];
    assert |ts| > 1 ==> !(ts[0].Text? && ts[0 + 1].Text?);
    forall k | 0 <= k < |us| - 1 ensures !(us[k].Text? && us[k + 1].Text?) {
      assert us[k] == ts[k + 1] && us[k + 1] == ts[k + 1 + 1];
    }
  }

  lemma OccursSlice(text: string, i: nat, a: string, b: string)
    requires i <= |text| && text[i..] == a + b
    ensures Occurs(text, i, a) && i + |a| <= |text| && text[i + |a|..] == b
  {
    var s := text[i..];
    assert forall k :: 0 <= k < |a| ==> text[i + k] == s[k];
    assert text[i + |a|..] == s[|a|..] == b;
  }

  lemma TokensOfTag(text: string, i: nat, t: Token)
    requires IsTag(t) && Occurs(text, i, Spelling(t))
    ensures i + |Spelling(t)| <= |text| && Tokens(text, i) == [t] + Tokens(text, i + |Spelling(t)|)
  {
    hide TagAt, IsTag, Spelling, Tokens;
    BracesOfTag(t);
    TagIffOccurs(text, i, t);
    FirstTag(text, i, t);
  }

  lemma TokensOfText(text: string, i: nat, s: string, next: Token)
    requires s != "" && Occurs(text, i, s) && IsTagFree(s)
    requires i + |s| == |text| || (IsTag(next) && Occurs(text, i + |s|, Spelling(next)))
    ensures Tokens(text, i) == [Text(s)] + Tokens(text, i + |s|)
  {
    hide TagAt, IsTag, Spelling;
    forall k | i <= k < i + |s| ensures TagAt(text, k).None? { NoTagInText(text, i, s, next, k); }
    if i + |s| < |text| { TagIffOccurs(text, i + |s|, next); }
    TextEndIs(text, i, i + |s|);
    SliceIs(text, i, s);
  }

  lemma {:induction false} SpelledTokens(text: string, i: nat, ts: seq<Token>)
    requires i <= |text| && text[i..] == SpellAll(ts) && IsCanonical(ts)
    ensures Tokens(text, i) == ts
    decreases |ts|
  {
    hide IsToken, Spelling, TagAt, IsTag, IsTagFree, Tokens;
    if ts == [] {
      NoTokens(text);
    } else {
      var t, us := ts[0], ts[1..];
      CanonicalTail(ts);
      OccursSlice(text, i, Spelling(t), SpellAll(us));
      SpelledTokens(text, i + |Spelling(t)|, us);
      if us != [] { OccursSlice(text, i + |Spelling(t)|, Spelling(us[0]), SpellAll(us[1..])); }
      TokensOfEither(text, i, t, if us != [] then us[0] else End);
      assert [t] + us == ts;
    }
  }

  lemma NoTokens(text: string)
    ensures Tokens(text, |text|) == []
  {
  }

  lemma TokensOfEither(text: string, i: nat, t: Token, next: Token)
    requires IsToken(t) && Occurs(text, i, Spelling(t))
    requires t.Text? ==> i + |Spelling(t)| == |text| || (IsTag(next) && Occurs(text, i + |Spelling(t)|, Spelling(next)))
    ensures i + |Spelling(t)| <= |text| && Tokens(text, i) == [t] + Tokens(text, i + |Spelling(t)|)
  {
    hide TagAt, Tokens;
    if t.Text? { TokensOfText(text, i, t.text, next); } else { TokensOfTag(text, i, t); }
  }

  /** Texts and canonical token lists correspond one to one. */
  lemma TokensIffSpelled(text: string, ts: seq<Token>)
    ensures Tokens(text, 0) == ts <==> IsCanonical(ts) && SpellAll(ts) == text
  {
    assert text[0..] == text;
    TokensSpell(text, 0);
    if IsCanonical(ts) && SpellAll(ts) == text { SpelledTokens(text, 0, ts); }
  }

  // ---------- the tokenizer ----------

  /**
   The loop `match_var` and `match_tag_with_param` share the form of: a name up to a closing text of
   three characters.
   */
  method MatchName(text: string, from: nat, close: string) returns (length: int, name: string)
    requires from <= |text| && |close| == 3 && close[0] == ' ' && '\0' !in close
    ensures var j := NameEnd(text, from);
      if StartsAt(text, j, close) then length == j + 3 - from && name == text[from..j] else length == -1
  {
    var cursor := from;
    while At(text, cursor) != '\0'
      invariant from <= cursor <= |text|
      invariant forall k :: from <= k < cursor ==> IsNameChar(text[k])
      decreases |text| - cursor
    {
      if At(text, cursor) == close[0] && At(text, cursor + 1) == close[1] && At(text, cursor + 2) == close[2] {
        NameEndIs(text, from, cursor);
        assert text[cursor..cursor + 3] == close;
        return cursor + 3 - from, text[from..cursor];
      }
      if !IsNameChar(text[cursor]) {
        NameEndIs(text, from, cursor);
        return -1, "";
      }
      cursor := cursor + 1;
    }
    NameEndIs(text, from, cursor);
    return -1, "";
  }

  /** template/NLTemplate.cpp `match_var`. */
  method MatchVar(text: string, i: nat) returns (length: int, name: string)
    ensures match ParamAt(VAR_OPEN, VAR_CLOSE, text, i)
      case Some(n) => name == n && length == |Spelling(Var(n))|
      case None => length == -1
  {
    if At(text, i) != '{' || At(text, i + 1) != '{' || At(text, i + 2) != ' ' { return -1, ""; }
    assert text[i..i + 3] == VAR_OPEN;
    length, name := MatchName(text, i + 3, VAR_CLOSE);
    if length != -1 { length := length + 3; }
  }

  /** template/NLTemplate.cpp `match_tag_with_param`. */
  method MatchTagWithParam(tag: string, text: string, i: nat) returns (length: int, name: string)
    ensures match ParamAt("{% " + tag + " ", TAG_CLOSE, text, i)
      case Some(n) => name == n && length == 3 + |tag| + 1 + |n| + 3
      case None => length == -1
  {
    TagPrefix(tag, text, i);
    if At(text, i) != '{' || At(text, i + 1) != '%' || At(text, i + 2) != ' ' { return -1, ""; }
    if !StartsAt(text, i + 3, tag) { return -1, ""; }
    var param := i + 3 + |tag|;
    if At(text, param) != ' ' { return -1, ""; }
    length, name := MatchName(text, param + 1, TAG_CLOSE);
    if length != -1 { length := length + 3 + |tag| + 1; }
  }

  lemma TagPrefix(tag: string, text: string, i: nat)
    ensures StartsAt(text, i, "{% " + tag + " ") <==>
            && At(text, i) == '{' && At(text, i + 1) == '%' && At(text, i + 2) == ' '
            && StartsAt(text, i + 3, tag) && At(text, i + 3 + |tag|) == ' '
  {
    StartsIffOccurs(text, i, "{% " + tag + " ");
    StartsIffOccurs(text, i + 3, tag);
    OccursConcat(text, i, "{% " + tag, " ");
    OccursConcat(text, i, "{% ", tag);
    LiteralOccurs(text, i, "{% ");
    LiteralOccurs(text, i + 3 + |tag|, " ");
  }

  lemma LiteralOccurs(text: string, i: nat, p: string)
    requires 0 < |p| <= 3 && '\0' !in p
    ensures Occurs(text, i, p) <==> forall k :: 0 <= k < |p| ==> At(text, i + k) == p[k]
    ensures |p| == 3 ==>
      (Occurs(text, i, p) <==> At(text, i) == p[0] && At(text, i + 1) == p[1] && At(text, i + 2) == p[2])
    ensures |p| == 1 ==> (Occurs(text, i, p) <==> At(text, i) == p[0])
  {
    if forall k :: 0 <= k < |p| ==> At(text, i + k) == p[k] {
      assert At(text, i + (|p| - 1)) == p[|p| - 1];
    }
  }

  class Tokenizer {
    const text: string
    var pos: nat
    var peek: Token
    var peeking: bool

    constructor (text: string)
      ensures this.text == text && Valid() && Left() == Tokens(text, 0)
    {
      this.text, pos, peek, peeking := text, 0, End, false;
    }

    ghost predicate Valid()
      reads this
    {
      pos <= |text| && (peeking && peek.End? ==> pos == |text|)
    }

    /** The tokens that are still to come. */
    ghost function Left(): seq<Token>
      requires Valid()
      reads this
    {
      if peeking && !peek.End? then [peek] + Tokens(text, pos) else Tokens(text, pos)
    }

    /** template/NLTemplate.cpp `Tokenizer::next`. */
    method Next() returns (token: Token)
      requires Valid()
      modifies this
      ensures Valid()
      ensures old(Left()) == if token.End? then [] else [token] + Left()
      ensures token.End? ==> Left() == []
    {
      hide Tokens, TagAt, Spelling;
      if peeking {
        peeking := false;
        NoTokens(text);
        return peek;
      }
      peek := End;
      var textpos := pos;
      var textlen := 0;
      while pos < |text|
        invariant pos == textpos + textlen <= |text| && peek == End && peeking == (textlen > 0)
        invariant forall k :: textpos <= k < pos ==> TagAt(text, k).None?
        decreases |text| - pos
      {
        var tag := Match(pos);
        if tag.Some? {
          peek := tag.value;
          pos := pos + |Spelling(peek)|;
          break;
        }
        textlen := textlen + 1;
        pos := pos + 1;
        peeking := true;
      }
      Found(textpos, textlen);
      if peeking { return Text(text[textpos..textpos + textlen]); }
      return peek;
    }

    /** The tests of one round of `next`, in their order. */
    method Match(i: nat) returns (tag: Option<Token>)
      requires i < |text|
      ensures tag == TagAt(text, i)
      ensures tag.Some? ==> i + |Spelling(tag.value)| <= |text| && !tag.value.End? && !tag.value.Text?
    {
      assert BLOCK_OPEN == "{% " + "block" + " " && INCLUDE_OPEN == "{% " + "include" + " ";
      if TagAt(text, i).Some? { TagFits(text, i); }
      var m, name := MatchTagWithParam("block", text, i);
      if m > 0 { return Some(BlockStart(name)); }
      if StartsAt(text, i, END_BLOCK) { return Some(BlockEnd); }
      m, name := MatchTagWithParam("include", text, i);
      if m > 0 { return Some(Include(name)); }
      m, name := MatchVar(text, i);
      if m > 0 { return Some(Var(name)); }
      return None;
    }

    /** What the search found, in terms of the tokens of the text. */
    lemma Found(textpos: nat, textlen: nat)
      requires textpos + textlen <= |text| && peeking == (textlen > 0)
      requires forall k :: textpos <= k < textpos + textlen ==> TagAt(text, k).None?
      requires if peek.End? then pos == textpos + textlen == |text|
               else textpos + textlen < |text| && TagAt(text, textpos + textlen) == Some(peek)
                    && pos == textpos + textlen + |Spelling(peek)|
      ensures Valid()
      ensures peeking ==> Tokens(text, textpos) == [Text(text[textpos..textpos + textlen])] + Left()
      ensures !peeking ==> Tokens(text, textpos) == if peek.End? then [] else [peek] + Left()
      ensures !peeking && peek.End? ==> Left() == []
    {
      hide TagAt, Spelling, Tokens;
      var q := textpos + textlen;
      NoTokens(text);
      if !peek.End? { FirstTag(text, q, peek); }
      if peeking {
        TextEndIs(text, textpos, q);
        FirstText(text, textpos);
      }
    }
  }
}
