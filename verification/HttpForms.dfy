/**
 Decoding what a request carries: the percent decoding and the path rules of
 server/request_handler.cpp, and the form parameters of server/request_parser.cpp.
 */
module HttpForms {
  import opened Options
  import opened Texts
  import opened HttpParser
  import opened HttpReply

  // ---------- percent decoding ----------

  /**
   The number a stream of the two characters `a` and `b` yields in hexadecimal: white space
   in front is skipped, a sign is taken, one digit is enough, and a lone "0x" is no number.
   */
  function ReadHexPair(a: char, b: char): Option<int> {
    if IsSpace(a) then (if IsXDigit(b) then Some(HexValue(b)) else None)
    else if a == '+' then (if IsXDigit(b) then Some(HexValue(b)) else None)
    else if a == '-' then (if IsXDigit(b) then Some(Negated(HexValue(b))) else None)
    else if !IsXDigit(a) || (a == '0' && (b == 'x' || b == 'X')) then None
    else if IsXDigit(b) then Some(HexValue(a) * 16 + HexValue(b))
    else Some(HexValue(a))
  }

  function Negated(v: int): int {
    -v
  }

  /** An `int` cast to a character of one byte. */
  function AsByte(value: int): char {
    (value % 256) as char
  }

  function UrlDecodeFrom(text: string, i: nat): Option<string>
    requires i <= |text|
    decreases |text| - i
  {
    if i == |text| then Some("")
    else if text[i] == '%' then
      if i + 3 > |text| then None
      else
        match ReadHexPair(text[i + 1], text[i + 2])
        case None => None
        case Some(value) => Prepend(AsByte(value), UrlDecodeFrom(text, i + 3))
    else Prepend(if text[i] == '+' then ' ' else text[i], UrlDecodeFrom(text, i + 1))
  }

  function Prepend(c: char, rest: Option<string>): Option<string> {
    match rest
    case None => None
    case Some(s) => Some([c] + s)
  }

  function UrlDecode(text: string): Option<string> {
    UrlDecodeFrom(text, 0)
  }

  /** What is decoded so far in front of what is still to be decoded. */
  function Behind(done: string, rest: Option<string>): Option<string> {
    match rest
    case None => None
    case Some(s) => Some(done + s)
  }

  lemma BehindPrepend(done: string, c: char, rest: Option<string>)
    ensures Behind(done, Prepend(c, rest)) == Behind(done + [c], rest)
  {
    if rest.Some? { Assoc(done, [c], rest.value); }
  }

  lemma BehindNothing(rest: Option<string>)
    ensures Behind("", rest) == rest
  {
    if rest.Some? { assert "" + rest.value == rest.value; }
  }

  /** server/request_handler.cpp `url_decode`. */
  method DecodeUrl(text: string) returns (ok: bool, out: string)
    ensures UrlDecode(text) == if ok then Some(out) else None
  {
    out := "";
    var i := 0;
    BehindNothing(UrlDecode(text));
    while i < |text|
      invariant i <= |text|
      invariant UrlDecode(text) == Behind(out, UrlDecodeFrom(text, i))
    {
      if text[i] == '%' {
        if i + 3 <= |text| {
          var value := ReadHexPair(text[i + 1], text[i + 2]);
          if value.Some? {
            BehindPrepend(out, AsByte(value.value), UrlDecodeFrom(text, i + 3));
            out := out + [AsByte(value.value)];
            i := i + 2;
          } else {
            return false, out;
          }
        } else {
          return false, out;
        }
      } else if text[i] == '+' {
        BehindPrepend(out, ' ', UrlDecodeFrom(text, i + 1));
        out := out + " ";
      } else {
        BehindPrepend(out, text[i], UrlDecodeFrom(text, i + 1));
        out := out + [text[i]];
      }
      i := i + 1;
    }
    assert out + "" == out;
    return true, out;
  }

  // ---------- encodings ----------

  /** One way to write a character: itself, `+`, or a percent sign and two characters. */
  datatype Piece = Plain(c: char) | Plus | Escape(a: char, b: char)

  /** An escape as section 2.1 of RFC 3986 has it. */
  predicate IsHexPair(a: char, b: char) {
    IsXDigit(a) && IsXDigit(b)
  }

  /** A digit behind a blank or a sign, or a digit in front of something that does not go on the number. */
  predicate IsLoosePair(a: char, b: char) {
    if IsXDigit(b) then IsSpace(a) || a == '+' || a == '-'
    else IsXDigit(a) && !(a == '0' && (b == 'x' || b == 'X'))
  }

  /** The byte such a pair stands for: its digits as a number, which a minus sign takes from 256. */
  function PairByte(a: char, b: char): nat
    requires IsHexPair(a, b) || IsLoosePair(a, b)
  {
    if !IsXDigit(b) then HexValue(a)
    else if IsXDigit(a) then HexValue(a) * 16 + HexValue(b)
    else if a == '-' && HexValue(b) > 0 then 256 - HexValue(b)
    else HexValue(b)
  }

  /** The stream of the source reads exactly these pairs, and reads those numbers from them. */
  lemma HexPairIsRead(a: char, b: char)
    ensures ReadHexPair(a, b).Some? <==> IsHexPair(a, b) || IsLoosePair(a, b)
    ensures ReadHexPair(a, b).Some? ==> AsByte(ReadHexPair(a, b).value) == PairByte(a, b) as char
  {
  }

  predicate PieceOk(p: Piece) {
    match p
    case Plain(c) => c != '%' && c != '+'
    case Plus => true
    case Escape(a, b) => IsHexPair(a, b) || IsLoosePair(a, b)
  }

  predicate IsStrict(p: Piece) {
    p.Escape? ==> IsHexPair(p.a, p.b)
  }

  predicate IsLoose(p: Piece) {
    p.Escape? && IsLoosePair(p.a, p.b)
  }

  function SpellPiece(p: Piece): string {
    match p
    case Plain(c) => [c]
    case Plus => "+"
    case Escape(a, b) => ['%', a, b]
  }

  function PieceMeaning(p: Piece): char
    requires PieceOk(p)
  {
    match p
    case Plain(c) => c
    case Plus => ' '
    case Escape(a, b) => PairByte(a, b) as char
  }

  function Spell(ps: seq<Piece>): string {
    if ps == [] then "" else SpellPiece(ps[0]) + Spell(ps[1..])
  }

  ghost predicate PiecesOk(ps: seq<Piece>) {
    forall k :: 0 <= k < |ps| ==> PieceOk(ps[k])
  }

  ghost function PiecesMeaning(ps: seq<Piece>): string
    requires PiecesOk(ps)
  {
    seq(|ps|, k requires 0 <= k < |ps| => PieceMeaning(ps[k]))
  }

  /** The pieces spell the text and mean `out`. */
  ghost predicate Encodes(ps: seq<Piece>, text: string, out: string) {
    PiecesOk(ps) && Spell(ps) == text && PiecesMeaning(ps) == out
  }

  lemma {:induction false} DecodeSpelled(ps: seq<Piece>, front: string)
    requires PiecesOk(ps)
    ensures UrlDecodeFrom(front + Spell(ps), |front|) == Some(PiecesMeaning(ps))
    decreases |ps|
  {
    var text := front + Spell(ps);
    if ps != [] {
      var p, behind := ps[0], front + SpellPiece(ps[0]);
      DecodeSpelled(ps[1..], behind);
      Assoc(front, SpellPiece(p), Spell(ps[1..]));
      assert text == behind + Spell(ps[1..]);
      assert forall k :: 0 <= k < |SpellPiece(p)| ==> text[|front| + k] == SpellPiece(p)[k];
      if p.Escape? { HexPairIsRead(p.a, p.b); }
      assert PiecesMeaning(ps) == [PieceMeaning(p)] + PiecesMeaning(ps[1..]);
    } else {
      assert PiecesMeaning(ps) == "";
    }
  }

  /** Every percent sign stands in front of two hexadecimal digits. */
  ghost predicate WellEscaped(text: string) {
    forall k :: 0 <= k < |text| && text[k] == '%' ==> k + 2 < |text| && IsXDigit(text[k + 1]) && IsXDigit(text[k + 2])
  }

  lemma {:induction false} FindPieces(text: string, i: nat) returns (ps: seq<Piece>)
    requires i <= |text| && UrlDecodeFrom(text, i).Some?
    ensures PiecesOk(ps) && text[i..] == Spell(ps)
    ensures WellEscaped(text) ==> forall k :: 0 <= k < |ps| ==> IsStrict(ps[k])
    decreases |text| - i
  {
    hide ReadHexPair, IsHexPair, IsLoosePair, PairByte, Spell;
    if i == |text| {
      ps := [];
      SpellFirst(Plus, []);
    } else {
      var p := if text[i] == '%' then Escape(text[i + 1], text[i + 2])
               else if text[i] == '+' then Plus else Plain(text[i]);
      if p.Escape? { HexPairIsRead(p.a, p.b); }
      var rest := FindPieces(text, i + |SpellPiece(p)|);
      ps := [p] + rest;
      SpellFirst(p, rest);
      PieceFirst(text, i, p);
      if WellEscaped(text) { StrictFirst(text, i, p); }
    }
  }

  lemma SpellFirst(p: Piece, rest: seq<Piece>)
    ensures Spell([p] + rest) == SpellPiece(p) + Spell(rest) && Spell([]) == ""
  {
    assert ([p] + rest)[1..] == rest;
  }

  lemma PieceFirst(text: string, i: nat, p: Piece)
    requires i + |SpellPiece(p)| <= |text|
    requires forall k :: 0 <= k < |SpellPiece(p)| ==> text[i + k] == SpellPiece(p)[k]
    ensures text[i..] == SpellPiece(p) + text[i + |SpellPiece(p)|..]
  {
  }

  lemma StrictFirst(text: string, i: nat, p: Piece)
    requires WellEscaped(text) && i < |text| && (p.Escape? ==> text[i] == '%')
    requires p.Escape? ==> i + 2 < |text| && p == Escape(text[i + 1], text[i + 2])
    ensures IsStrict(p)
  {
  }

  /** Exactly the texts made of plain characters, `+` and readable escapes are decoded, piece by piece. */
  lemma DecodedIffSpelled(text: string, out: string)
    ensures UrlDecode(text) == Some(out) <==> exists ps :: Encodes(ps, text, out)
  {
    if UrlDecode(text).Some? {
      var ps := FindPieces(text, 0);
      assert text[0..] == text;
      assert Encodes(ps, text, PiecesMeaning(ps));
    }
    forall ps, was | Encodes(ps, text, was)
      ensures UrlDecode(text) == Some(was)
    {
      DecodeSpelled(ps, "");
      assert "" + Spell(ps) == Spell(ps);
    }
  }

  // ---------- the encoding of RFC 3986 ----------

  lemma {:induction false} WellEscapedIsDecoded(text: string, i: nat)
    requires WellEscaped(text) && i <= |text|
    ensures UrlDecodeFrom(text, i).Some?
    decreases |text| - i
  {
    if i < |text| {
      WellEscapedIsDecoded(text, if text[i] == '%' then i + 3 else i + 1);
    }
  }

  lemma {:induction false} StrictIsWellEscaped(ps: seq<Piece>)
    requires PiecesOk(ps) && forall k :: 0 <= k < |ps| ==> IsStrict(ps[k])
    ensures WellEscaped(Spell(ps))
    decreases |ps|
  {
    if ps != [] {
      var first, rest := SpellPiece(ps[0]), Spell(ps[1..]);
      StrictIsWellEscaped(ps[1..]);
      forall k | 0 <= k < |first + rest| && (first + rest)[k] == '%'
        ensures k + 2 < |first + rest| && IsXDigit((first + rest)[k + 1]) && IsXDigit((first + rest)[k + 2])
      {
        if k >= |first| { assert rest[k - |first|] == '%'; }
      }
    }
  }

  /** The well-escaped texts are the strictly spelled ones, and all of them are decoded to what they mean. */
  lemma WellEscapedIffStrict(text: string)
    ensures WellEscaped(text)
       <==> exists ps, out :: Encodes(ps, text, out) && forall k :: 0 <= k < |ps| ==> IsStrict(ps[k])
    ensures WellEscaped(text) ==>
              exists ps, out ::
                Encodes(ps, text, out) && UrlDecode(text) == Some(out) && forall k :: 0 <= k < |ps| ==> IsStrict(ps[k])
  {
    forall ps, out | Encodes(ps, text, out) && forall k :: 0 <= k < |ps| ==> IsStrict(ps[k])
      ensures WellEscaped(text)
    {
      StrictIsWellEscaped(ps);
    }
    if WellEscaped(text) {
      WellEscapedIsDecoded(text, 0);
      var ps := FindPieces(text, 0);
      assert text[0..] == text;
      DecodeSpelled(ps, "");
      assert "" + Spell(ps) == Spell(ps);
      assert Encodes(ps, text, PiecesMeaning(ps));
    }
  }

  /** The text is made of characters, plus signs and pairs of either kind, at least one of them loose. */
  ghost predicate IsLooselyEscaped(text: string) {
    exists ps, out :: Encodes(ps, text, out) && exists k :: 0 <= k < |ps| && IsLoose(ps[k])
  }

  /** A malformed text is nevertheless decoded exactly when loose pairs make up for what is malformed in it. */
  lemma MalformedIsDecodedIff(text: string)
    requires !WellEscaped(text)
    ensures UrlDecode(text).Some? <==> IsLooselyEscaped(text)
  {
    if UrlDecode(text).Some? {
      var ps := FindPieces(text, 0);
      assert text[0..] == text;
      assert Encodes(ps, text, PiecesMeaning(ps));
      if forall k :: 0 <= k < |ps| ==> !IsLoose(ps[k]) {
        assert forall k :: 0 <= k < |ps| ==> IsStrict(ps[k]);
        StrictIsWellEscaped(ps);
      }
    }
    forall ps, out | Encodes(ps, text, out)
      ensures UrlDecode(text).Some?
    {
      DecodedIffSpelled(text, out);
    }
  }

  /** One such text. */
  lemma MalformedExample()
    ensures !WellEscaped("%-1") && UrlDecode("%-1") == Some([255 as char])
  {
    var text := "%-1";
    assert text[0] == '%' && !IsXDigit(text[1]);
    assert UrlDecodeFrom(text, 3) == Some("");
    assert AsByte(-1) == 255 as char;
    assert [255 as char] + "" == [255 as char];
  }

  function HexDigit(v: nat, upper: bool): (c: char)
    requires v < 16
    ensures IsXDigit(c) && HexValue(c) == v
  {
    if v < 10 then '0' + v as char else if upper then 'A' + (v - 10) as char else 'a' + (v - 10) as char
  }

  /** How an encoder may write a byte: its choice of form and of the case of its digits. */
  datatype Choice = Choice(escape: bool, upperHigh: bool, upperLow: bool)

  function EncodeByte(c: char, how: Choice): (p: Piece)
    requires c as int < 256
    ensures PieceOk(p) && IsStrict(p) && PieceMeaning(p) == c
  {
    if how.escape || c == '%' || c == '+' then
      Escape(HexDigit(c as int / 16, how.upperHigh), HexDigit(c as int % 16, how.upperLow))
    else if c == ' ' then Plus
    else Plain(c)
  }

  function UrlEncode(bytes: string, how: seq<Choice>): string
    requires |how| == |bytes| && forall k :: 0 <= k < |bytes| ==> bytes[k] as int < 256
  {
    Spell(seq(|bytes|, k requires 0 <= k < |bytes| => EncodeByte(bytes[k], how[k])))
  }

  /** Whatever an encoder escapes, in whatever case it writes its digits, decoding gives the bytes back. */
  lemma UrlRoundTrip(bytes: string, how: seq<Choice>)
    requires |how| == |bytes| && forall k :: 0 <= k < |bytes| ==> bytes[k] as int < 256
    ensures UrlDecode(UrlEncode(bytes, how)) == Some(bytes)
  {
    var ps := seq(|bytes|, k requires 0 <= k < |bytes| => EncodeByte(bytes[k], how[k]));
    DecodeSpelled(ps, "");
    assert "" + Spell(ps) == Spell(ps);
    assert PiecesMeaning(ps) == bytes;
  }

  // ---------- the path of a request ----------

  ghost predicate HasDots(s: string) {
    exists k :: 0 <= k < |s| - 1 && s[k] == '.' == s[k + 1]
  }

  /** Whether ".." occurs, by looking for it from the left. */
  method FindDots(s: string) returns (found: bool)
    ensures found <==> HasDots(s)
  {
    var k := 0;
    while k + 1 < |s|
      invariant k <= |s|
      invariant forall j :: 0 <= j < k && j < |s| - 1 ==> !(s[j] == '.' == s[j + 1])
    {
      if s[k] == '.' && s[k + 1] == '.' { return true; }
      k := k + 1;
    }
    return false;
  }

  /** The last position of a character, or -1. */
  function LastIndex(s: string, c: char): (k: int)
    ensures -1 <= k < |s| && (k >= 0 ==> s[k] == c)
    ensures forall j :: k < j < |s| ==> s[j] != c
  {
    if s == "" then -1 else if s[|s| - 1] == c then |s| - 1 else LastIndex(s[..|s| - 1], c)
  }

  /** The file a decoded path names, below the document root. */
  function FilePath(path: string): string
    requires path != ""
  {
    if path[|path| - 1] == '/' then path + "index.html" else path
  }

  ghost predicate IsServable(path: string) {
    path != "" && path[0] == '/' && !HasDots(path)
  }

  /** Only paths that begin with a slash and in which no ".." stands anywhere are served. */
  lemma ServableIff(path: string)
    ensures IsServable(path) <==> Occurs(path, 0, "/") && forall k: nat :: !Occurs(path, k, "..")
  {
    var slash := "/";
    assert Occurs(path, 0, slash) <==> path != "" && path[0] == slash[0];
    forall k: nat | Occurs(path, k, "..")
      ensures HasDots(path)
    {
      OccursAt(path, k, "..", 0);
      OccursAt(path, k, "..", 1);
    }
    if HasDots(path) {
      var k :| 0 <= k < |path| - 1 && path[k] == '.' == path[k + 1];
      assert Occurs(path, k, "..");
    }
  }

  /** What stands behind the last dot of the last segment. */
  function ExtensionOf(path: string): string {
    var slash, dot := LastIndex(path, '/'), LastIndex(path, '.');
    if dot != -1 && dot > slash then path[dot + 1..] else ""
  }

  /** The part of server/request_handler.cpp `handle_request` up to opening the file. */
  method ResolvePath(uri: string) returns (file: Option<string>, extension: string)
    ensures match UrlDecode(uri)
      case Some(path) => file == if IsServable(path) then Some(FilePath(path)) else None
      case None => file == None
    ensures file.Some? ==> extension == ExtensionOf(file.value)
  {
    extension := "";
    var ok, path := DecodeUrl(uri);
    if !ok { return None, ""; }
    var dots := FindDots(path);
    if path == "" || path[0] != '/' || dots { return None, ""; }
    if path[|path| - 1] == '/' { path := path + "index.html"; }
    var slash, dot := LastIndex(path, '/'), LastIndex(path, '.');
    if dot != -1 && dot > slash { extension := path[dot + 1..]; }
    file := Some(path);
  }

  /** A resolved path is absolute, goes on with what was decoded, ends in no slash and never climbs. */
  lemma ResolvedPathStaysBelow(path: string)
    requires IsServable(path)
    ensures var file := FilePath(path);
      && file == (if path[|path| - 1] == '/' then path + "index.html" else path)
      && file[0] == '/' && file[|file| - 1] != '/'
      && !HasDots(file) && forall k :: 0 <= k < |file| - 1 ==> !(file[k] == '.' && file[k + 1] == '.')
  {
    var file := FilePath(path);
    forall k | 0 <= k < |file| - 1 ensures !(file[k] == '.' == file[k + 1]) {
      if k + 1 < |path| {
        assert file[k] == path[k] && file[k + 1] == path[k + 1];
      } else if path[|path| - 1] == '/' {
        assert k + 1 - |path| < |"index.html"| && file[k + 1] == "index.html"[k + 1 - |path|];
        assert k >= |path| ==> file[k] == "index.html"[k - |path|];
      }
    }
    assert path[|path| - 1] == '/' ==> file[|file| - 1] == "index.html"[9];
  }

  // ---------- the file that is opened ----------

  /** The name handed to the file system ends at the first NUL. */
  function Opened(root: string, path: string): string
    requires path != ""
  {
    CString(root + FilePath(path))
  }

  /** The part of the opened name behind the document root. */
  function Served(path: string): string
    requires path != ""
  {
    CString(FilePath(path))
  }

  lemma ServedIs(path: string)
    requires path != ""
    ensures Served(path) == if NulFree(path) then FilePath(path) else CString(path)
  {
    hide CString, NulFree;
    IndexIsNulFree();
    NulFreeConcat(path, "index.html");
    CStringIsWholeIff(FilePath(path));
    if !NulFree(path) { CStringStops(path, "index.html"); }
  }

  lemma IndexIsNulFree()
    ensures NulFree("index.html")
  {
  }

  /** What is opened lies below the document root: it is absolute there and never climbs, whatever was decoded. */
  lemma OpenedStaysBelow(root: string, path: string)
    requires NulFree(root) && IsServable(path)
    ensures Opened(root, path) == root + Served(path)
    ensures Served(path) != "" && Served(path)[0] == '/' && !HasDots(Served(path)) && Served(path) <= FilePath(path)
  {
    hide CString, NulFree;
    CStringBehind(root, FilePath(path));
    ResolvedPathStaysBelow(path);
    ServedIs(path);
    CStringCuts(FilePath(path));
    var s, file := Served(path), FilePath(path);
    forall k | 0 <= k < |s| - 1 ensures !(s[k] == '.' == s[k + 1])
    {
      assert s[k] == file[k] && s[k + 1] == file[k + 1];
    }
    CStringStarts(file);
  }

  /**
   What is opened is no directory exactly if the decoded path has no NUL, or no slash stands in front
   of its first one.
   */
  lemma OpenedIsNoDirectoryIff(path: string)
    requires IsServable(path)
    ensures Served(path) != ""
    ensures Served(path)[|Served(path)| - 1] != '/' <==> NulFree(path) || CString(path)[|CString(path)| - 1] != '/'
  {
    OpenedStaysBelow("", path);
    ResolvedPathStaysBelow(path);
    ServedIs(path);
  }

  lemma LastIndexIs(s: string, c: char, k: int)
    requires -1 <= k < |s| && (k >= 0 ==> s[k] == c) && forall j :: k < j < |s| ==> s[j] != c
    ensures LastIndex(s, c) == k
  {
  }

  lemma LastIndexBounds(s: string, c: char)
    ensures -1 <= LastIndex(s, c) < |s|
  {
  }

  lemma LastIndexConcat(a: string, b: string, c: char)
    ensures LastIndex(a + b, c) == if LastIndex(b, c) >= 0 then |a| + LastIndex(b, c) else LastIndex(a, c)
  {
    var ab := a + b;
    var k := if LastIndex(b, c) >= 0 then |a| + LastIndex(b, c) else LastIndex(a, c);
    forall j | k < j < |ab| ensures ab[j] != c {
      if j >= |a| { assert ab[j] == b[j - |a|]; }
    }
    LastIndexIs(ab, c, k);
  }

  /**
   An extension goes on behind a front that a slash or dot separates from it, and otherwise takes the
   front's with it.
   */
  lemma ExtensionConcat(a: string, b: string)
    ensures LastIndex(b, '.') >= 0 || LastIndex(b, '/') >= 0 ==> ExtensionOf(a + b) == ExtensionOf(b)
    ensures LastIndex(b, '.') == LastIndex(b, '/') == -1 ==>
              ExtensionOf(a + b) == if LastIndex(a, '.') > LastIndex(a, '/') then ExtensionOf(a) + b else ""
  {
    hide LastIndex;
    LastIndexConcat(a, b, '.');
    LastIndexConcat(a, b, '/');
    LastIndexBounds(a, '.');
    LastIndexBounds(a, '/');
    LastIndexBounds(b, '.');
    LastIndexBounds(b, '/');
    DropConcat(a, b, LastIndex(a + b, '.') + 1);
  }

  lemma IndexFound(s: string, c: char)
    ensures c in s <==> LastIndex(s, c) >= 0
  {
  }

  /** The extension of a path with a NUL in it. */
  lemma ExtensionBehindNul(front: string, rest: string)
    ensures ExtensionOf(front + ("\0" + rest)) ==
            if '.' in rest || '/' in rest then ExtensionOf(rest)
            else if LastIndex(front, '.') > LastIndex(front, '/') then ExtensionOf(front) + ("\0" + rest) else ""
  {
    hide LastIndex, ExtensionOf;
    var nul := "\0";
    LastIndexIs(nul, '.', -1);
    LastIndexIs(nul, '/', -1);
    LastIndexConcat(nul, rest, '.');
    LastIndexConcat(nul, rest, '/');
    LastIndexBounds(rest, '.');
    LastIndexBounds(rest, '/');
    IndexFound(rest, '.');
    IndexFound(rest, '/');
    ExtensionConcat(nul, rest);
    ExtensionConcat(front, nul + rest);
  }

  /** Whether what stands behind a NUL leaves the type of what stands in front of it. */
  predicate KeepsType(front: string, behind: string) {
    if behind != "" && behind[|behind| - 1] == '/' then ExtensionOf(front) == "html"
    else if '.' in behind || '/' in behind then ExtensionOf(front) == ExtensionOf(behind)
    else LastIndex(front, '.') <= LastIndex(front, '/')
  }

  /**
   The type announced is that of the file opened exactly if the decoded path has no NUL, or
   what stands behind its first one happens to leave the type.
   */
  lemma TypeIsOpenedIff(path: string)
    requires IsServable(path)
    ensures ExtensionOf(FilePath(path)) == ExtensionOf(Served(path))
       <==> NulFree(path) || KeepsType(CString(path), BehindNul(path))
  {
    ServedIs(path);
    CStringCuts(path);
    if !NulFree(path) {
      TypeBehindNul(path, CString(path), BehindNul(path));
    }
  }

  lemma TypeBehindNul(path: string, front: string, behind: string)
    requires path == front + ("\0" + behind)
    ensures ExtensionOf(FilePath(path)) == ExtensionOf(front) <==> KeepsType(front, behind)
  {
    hide LastIndex, ExtensionOf;
    assert path[|path| - 1] == ("\0" + behind)[|behind|];
    NoDotNoExtension(front);
    if path[|path| - 1] == '/' {
      var rest := behind + "index.html";
      Assoc(front, "\0" + behind, "index.html");
      Assoc("\0", behind, "index.html");
      IndexHtml();
      ExtensionConcat(behind, "index.html");
      ExtensionBehindNul(front, rest);
      assert rest[|behind| + 5] == '.';
    } else {
      ExtensionBehindNul(front, behind);
    }
  }

  lemma NoDotNoExtension(path: string)
    ensures LastIndex(path, '.') <= LastIndex(path, '/') ==> ExtensionOf(path) == ""
  {
  }

  lemma IndexHtml()
    ensures ExtensionOf("index.html") == "html" && LastIndex("index.html", '.') == 5
  {
    LastIndexIs("index.html", '.', 5);
    LastIndexIs("index.html", '/', -1);
  }

  /** A well-escaped request that opens a directory. */
  lemma DirectoryExample()
    ensures WellEscaped("/%00") && UrlDecode("/%00") == Some("/\0") && IsServable("/\0") && Served("/\0") == "/"
  {
    var text := "/%00";
    assert UrlDecodeFrom(text, 4) == Some("");
    assert UrlDecodeFrom(text, 1) == Some("\0" + "");
    assert "/" + ("\0" + "") == "/\0";
    assert CString("\0") == "" && "/\0"[1..] == "\0";
  }

  /** A well-escaped request that opens a file without an extension under the type of another one. */
  lemma TypeExample()
    ensures WellEscaped("/a%00.b") && UrlDecode("/a%00.b") == Some("/a\0.b") && IsServable("/a\0.b")
    ensures Served("/a\0.b") == "/a" && ExtensionOf(FilePath("/a\0.b")) == "b" && ExtensionOf("/a") == ""
  {
    var text, path := "/a%00.b", "/a\0.b";
    assert UrlDecodeFrom(text, 7) == Some("");
    assert UrlDecodeFrom(text, 5) == Some("." + ("b" + ""));
    assert UrlDecodeFrom(text, 2) == Some("\0" + ("." + ("b" + "")));
    assert "/" + ("a" + ("\0" + ("." + ("b" + "")))) == path;
    assert path[1..] == "a\0.b" && path[1..][1..] == "\0.b";
    assert CString(path[1..][1..]) == "" && CString(path[1..]) == "a" + "" && CString(path) == "/" + ("a" + "");
    LastIndexIs(path, '/', 0);
    LastIndexIs(path, '.', 3);
    assert path[4..] == "b";
    LastIndexIs("/a", '.', -1);
  }

  /** The extension is the last suffix without slash and dot that a dot separates, and there is no other. */
  lemma ExtensionIsLastSuffix(path: string)
    ensures '/' !in ExtensionOf(path) && '.' !in ExtensionOf(path)
    ensures ExtensionOf(path) != "" ==> exists stem :: path == stem + "." + ExtensionOf(path)
    ensures forall stem, e :: path == stem + "." + e && '/' !in e && '.' !in e ==> ExtensionOf(path) == e
  {
    var slash, dot := LastIndex(path, '/'), LastIndex(path, '.');
    if dot > slash { assert path == path[..dot] + "." + path[dot + 1..]; }
    forall stem, e | path == stem + "." + e && '/' !in e && '.' !in e
      ensures ExtensionOf(path) == e
    {
      forall j | |stem| < j < |path| ensures path[j] != '.' && path[j] != '/' { assert path[j] == e[j - |stem| - 1]; }
      assert path[|stem|] == '.';
      LastIndexIs(path, '.', |stem|);
      assert path[|stem| + 1..] == e;
    }
  }

  // ---------- form parameters ----------

  /** The pieces of a text between the occurrences of a separator. */
  function Split(s: string, c: char): (parts: seq<string>)
    ensures parts != []
  {
    SplitFrom(s, 0, 0, c)
  }

  function SplitFrom(s: string, start: nat, i: nat, c: char): (parts: seq<string>)
    requires start <= i <= |s|
    ensures parts != []
    decreases |s| - i
  {
    if i == |s| then [s[start..]]
    else if s[i] == c then [s[start..i]] + SplitFrom(s, i + 1, i + 1, c)
    else SplitFrom(s, start, i + 1, c)
  }

  function Join(parts: seq<string>, c: char): string {
    if parts == [] then ""
    else if |parts| == 1 then parts[0]
    else parts[0] + ([c] + Join(parts[1..], c))
  }

  ghost predicate Free(parts: seq<string>, c: char) {
    forall k :: 0 <= k < |parts| ==> c !in parts[k]
  }

  lemma {:induction false} SplitPieces(s: string, start: nat, i: nat, c: char)
    requires start <= i <= |s| && forall k :: start <= k < i ==> s[k] != c
    ensures Join(SplitFrom(s, start, i, c), c) == s[start..] && Free(SplitFrom(s, start, i, c), c)
    decreases |s| - i
  {
    if i < |s| {
      if s[i] == c {
        var rest := SplitFrom(s, i + 1, i + 1, c);
        SplitPieces(s, i + 1, i + 1, c);
        assert ([s[start..i]] + rest)[1..] == rest;
        assert s[start..] == s[start..i] + ([c] + s[i + 1..]);
      } else {
        SplitPieces(s, start, i + 1, c);
      }
    }
  }

  lemma {:induction false} SplitWalks(s: string, start: nat, i: nat, j: nat, c: char)
    requires start <= i <= j <= |s| && forall k :: i <= k < j ==> s[k] != c
    ensures SplitFrom(s, start, i, c) == SplitFrom(s, start, j, c)
    decreases j - i
  {
    if i < j { SplitWalks(s, start, i + 1, j, c); }
  }

  lemma SplitPart(s: string, i: nat, part: string, c: char)
    requires Occurs(s, i, part) && c !in part
    requires i + |part| < |s| ==> s[i + |part|] == c
    ensures var j := i + |part|;
      SplitFrom(s, i, i, c) == [part] + (if j < |s| then SplitFrom(s, j + 1, j + 1, c) else [])
  {
    var j := i + |part|;
    assert forall k :: i <= k < j ==> s[k] == part[k - i];
    SplitWalks(s, i, i, j, c);
    SliceIs(s, i, part);
    if j == |s| { assert s[i..] == s[i..j]; }
  }

  lemma {:induction false} SplitJoined(s: string, i: nat, parts: seq<string>, c: char)
    requires parts != [] && Free(parts, c) && i <= |s| && s[i..] == Join(parts, c)
    ensures SplitFrom(s, i, i, c) == parts
    decreases |parts|
  {
    hide SplitFrom;
    var part, j := parts[0], i + |parts[0]|;
    assert part <= s[i..];
    assert Occurs(s, i, part) by { assert forall k :: 0 <= k < |part| ==> s[i + k] == s[i..][k]; }
    if |parts| > 1 {
      assert s[i..][|part|] == c;
      assert s[j + 1..] == s[i..][|part| + 1..] == Join(parts[1..], c);
      SplitJoined(s, j + 1, parts[1..], c);
    }
    SplitPart(s, i, part, c);
    assert parts == [part] + parts[1..];
  }

  /** Splitting is the one way to cut a text at a separator, and joining undoes it. */
  lemma SplitIffJoin(s: string, parts: seq<string>, c: char)
    ensures Split(s, c) == parts <==> parts != [] && Free(parts, c) && Join(parts, c) == s
  {
    SplitPieces(s, 0, 0, c);
    assert s[0..] == s;
    if parts != [] && Free(parts, c) && Join(parts, c) == s {
      SplitJoined(s, 0, parts, c);
    }
  }

  function PairOf(pair: string): Header
    requires |Split(pair, '=')| >= 2
  {
    Header(Split(pair, '=')[0], Split(pair, '=')[1])
  }

  function PairsOf(pairs: seq<string>): (r: seq<Header>)
    requires forall k :: 0 <= k < |pairs| ==> |Split(pairs[k], '=')| >= 2
    ensures |r| == |pairs| && forall k :: 0 <= k < |pairs| ==> r[k] == PairOf(pairs[k])
  {
    seq(|pairs|, k requires 0 <= k < |pairs| => PairOf(pairs[k]))
  }

  /** The announced length fits the text and there is an equals sign in every pair; the source does not look. */
  ghost predicate IsForm(hs: seq<Header>, params: string) {
    var length := ContentLength(hs);
    params != "" && length > 0 ==>
      && length <= |params|
      && var pairs := Split(params[..length], '&');
         forall k :: 0 <= k < |pairs| ==> |Split(pairs[k], '=')| >= 2
  }

  ghost function Parameters(hs: seq<Header>, params: string): seq<Header>
    requires IsForm(hs, params)
  {
    var length := ContentLength(hs);
    if params != "" && length > 0 then PairsOf(Split(params[..length], '&')) else []
  }

  /** server/request_parser.cpp `parse_paremeters`. */
  method ParseParameters(req: RequestObject, params: string)
    requires IsForm(req.headers, params)
    modifies req
    ensures req.parameters == old(req.parameters) + Parameters(old(req.headers), params)
    ensures req.Value() == old(req.Value())
  {
    if params != "" {
      var length := ReadContentLength(req.headers);
      if length > 0 {
        var pairs := Split(params[..length], '&');
        var i := 0;
        while i < |pairs|
          invariant i <= |pairs| && req.Value() == old(req.Value())
          invariant req.parameters == old(req.parameters) + PairsOf(pairs)[..i]
        {
          var values := Split(pairs[i], '=');
          req.parameters := req.parameters + [Header(values[0], values[1])];
          i := i + 1;
        }
        assert PairsOf(pairs)[..i] == PairsOf(pairs);
      }
    }
  }

  /**
   A pair has an equals sign, its name is what stands before the first, and its value goes to the
   next one or to the end.
   */
  lemma PairIsCut(pair: string, name: string, rest: string)
    requires pair == name + ("=" + rest) && '=' !in name
    ensures |Split(pair, '=')| >= 2 && PairOf(pair) == Header(name, Split(rest, '=')[0])
    ensures PairOf(pair).value == rest <==> '=' !in rest
  {
    var values := Split(rest, '=');
    SplitIffJoin(rest, values, '=');
    var parts := [name] + values;
    assert parts[1..] == values;
    SplitIffJoin(pair, parts, '=');
    if '=' !in rest {
      SplitIffJoin(rest, [rest], '=');
    }
  }

  function FormPairs(list: seq<Header>): (pairs: seq<string>)
    ensures |pairs| == |list| && forall k :: 0 <= k < |list| ==> pairs[k] == list[k].name + ("=" + list[k].value)
  {
    seq(|list|, k requires 0 <= k < |list| => list[k].name + ("=" + list[k].value))
  }

  function FormText(list: seq<Header>): string {
    Join(FormPairs(list), '&')
  }

  /** Names and values free of both separators come back from a form in order, whatever follows the announced length. */
  lemma FormRoundTrip(hs: seq<Header>, list: seq<Header>, behind: string)
    requires list != [] && ContentLength(hs) == |FormText(list)|
    requires forall k :: 0 <= k < |list| ==> '&' !in list[k].name && '=' !in list[k].name
    requires forall k :: 0 <= k < |list| ==> '&' !in list[k].value && '=' !in list[k].value
    ensures IsForm(hs, FormText(list) + behind) && Parameters(hs, FormText(list) + behind) == list
  {
    var pairs := FormPairs(list);
    var text := FormText(list);
    assert pairs[0] != "" && |text| >= |pairs[0]|;
    assert (text + behind)[..|text|] == text;
    SplitIffJoin(text, pairs, '&');
    forall k | 0 <= k < |list|
      ensures |Split(pairs[k], '=')| >= 2 && PairOf(pairs[k]) == list[k]
    {
      PairIsCut(pairs[k], list[k].name, list[k].value);
      SplitIffJoin(list[k].value, [list[k].value], '=');
    }
    assert PairsOf(pairs) == list;
  }
}
