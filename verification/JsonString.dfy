/**
 String bodies of tools/gason.cpp: their grammar, what they decode to, the in-place
 decoder, and when its result is the string RFC 8259 gives the body.
 */
module JsonString {
  import opened Options
  import opened Texts
  import opened JsonChars

  /** One unit of a string body: a plain character, a short escape or `\uXXXX`. */
  datatype Piece = Raw(c: char) | Escape(c: char) | Unicode(hex: string)

  const QUOTE: char := '\"'
  const BACKSLASH: char := '\\'
  const DELETE: char := 127 as char

  predicate IsControl(c: char) {
    c < ' ' || c == DELETE
  }

  predicate IsShortEscape(c: char) {
    c == BACKSLASH || c == QUOTE || c == '/' || c == 'b' || c == 'f' || c == 'n' || c == 'r' || c == 't'
  }

  predicate IsHex4(s: string) {
    |s| == 4 && IsXDigit(s[0]) && IsXDigit(s[1]) && IsXDigit(s[2]) && IsXDigit(s[3])
  }

  predicate PieceOk(p: Piece) {
    match p
    case Raw(c) => c != BACKSLASH && c != QUOTE && !IsControl(c)
    case Escape(c) => IsShortEscape(c)
    case Unicode(hex) => IsHex4(hex)
  }

  ghost predicate PiecesOk(ps: seq<Piece>) {
    forall i :: 0 <= i < |ps| ==> PieceOk(ps[i])
  }

  function SpellPiece(p: Piece): string {
    match p
    case Raw(c) => [c]
    case Escape(c) => [BACKSLASH, c]
    case Unicode(hex) => [BACKSLASH, 'u'] + hex
  }

  function SpellPieces(ps: seq<Piece>): string {
    if ps == [] then "" else SpellPiece(ps[0]) + SpellPieces(ps[1..])
  }

  // ---------- meaning ----------

  function ShortMeaning(c: char): char {
    match c
    case 'b' => 8 as char
    case 'f' => 12 as char
    case 'n' => 10 as char
    case 'r' => 13 as char
    case 't' => 9 as char
    case _ => c
  }

  function HexCode(hex: string): (n: nat)
    requires IsHex4(hex)
    ensures n < 0x10000
  {
    HexValue(hex[0]) * 4096 + HexValue(hex[1]) * 256 + HexValue(hex[2]) * 16 + HexValue(hex[3])
  }

  function Byte(n: nat): (c: char)
    requires n < 256
    ensures c as int == n
  {
    n as char
  }

  /** The bytes written for one code unit; surrogates are encoded like any other unit. */
  function UnitBytes(n: nat): (s: string)
    requires n < 0x10000
    ensures 1 <= |s| <= 3
  {
    if n < 0x80 then [Byte(n)]
    else if n < 0x800 then [Byte(0xC0 + n / 64), Byte(0x80 + n % 64)]
    else [Byte(0xE0 + n / 4096), Byte(0x80 + n / 64 % 64), Byte(0x80 + n % 64)]
  }

  function PieceBytes(p: Piece): (s: string)
    requires PieceOk(p)
    ensures 1 <= |s| <= |SpellPiece(p)|
  {
    match p
    case Raw(c) => [c]
    case Escape(c) => [ShortMeaning(c)]
    case Unicode(hex) => UnitBytes(HexCode(hex))
  }

  function Decode(ps: seq<Piece>): string
    requires PiecesOk(ps)
  {
    if ps == [] then "" else PieceBytes(ps[0]) + Decode(ps[1..])
  }

  // ---------- scanning ----------

  datatype PieceScan = Found(piece: Piece, next: nat) | Quote | Stray(at: nat)

  datatype StringScan = Closed(pieces: seq<Piece>, end: nat) | Unclosed(pieces: seq<Piece>) | Bad(at: nat)

  /** The first of the four positions from `i` on that is not a hexadecimal digit, if any. */
  function HexStops(text: string, i: nat): nat {
    if !IsXDigit(At(text, i)) then i
    else if !IsXDigit(At(text, i + 1)) then i + 1
    else if !IsXDigit(At(text, i + 2)) then i + 2
    else if !IsXDigit(At(text, i + 3)) then i + 3
    else i + 4
  }

  function ScanPiece(text: string, i: nat): (r: PieceScan)
    requires i < |text|
    ensures r.Found? ==> i < r.next <= |text| && PieceOk(r.piece)
    ensures r.Stray? ==> i <= r.at <= |text|
  {
    var c := text[i];
    if c == BACKSLASH then
      if At(text, i + 1) == 'u' then
        var k := HexStops(text, i + 2);
        if k == i + 6 then Found(Unicode(text[i + 2..i + 6]), i + 6) else Stray(k)
      else if IsShortEscape(At(text, i + 1)) then Found(Escape(text[i + 1]), i + 2)
      else Stray(i + 1)
    else if IsControl(c) then Stray(i)
    else if c == QUOTE then Quote
    else Found(Raw(c), i + 1)
  }

  function Prepend(ps: seq<Piece>, r: StringScan): StringScan {
    match r
    case Closed(qs, end) => Closed(ps + qs, end)
    case Unclosed(qs) => Unclosed(ps + qs)
    case Bad(at) => Bad(at)
  }

  /** The string body that starts at `i`, just behind the opening quote. */
  function ScanString(text: string, i: nat): (r: StringScan)
    requires i <= |text|
    ensures !r.Bad? ==> PiecesOk(r.pieces)
    ensures r.Closed? ==> i < r.end <= |text|
    ensures r.Bad? ==> i <= r.at <= |text|
    decreases |text| - i
  {
    if i == |text| then Unclosed([])
    else
      match ScanPiece(text, i)
      case Quote => Closed([], i + 1)
      case Stray(at) => Bad(at)
      case Found(p, next) => Prepend([p], ScanString(text, next))
  }

  lemma PrependNone(r: StringScan)
    ensures Prepend([], r) == r
  {
    if !r.Bad? { assert [] + r.pieces == r.pieces; }
  }

  lemma PrependTwice(ps: seq<Piece>, qs: seq<Piece>, r: StringScan)
    ensures Prepend(ps, Prepend(qs, r)) == Prepend(ps + qs, r)
  {
    if !r.Bad? { assert ps + (qs + r.pieces) == ps + qs + r.pieces; }
  }

  lemma {:induction false} DecodeConcat(ps: seq<Piece>, qs: seq<Piece>)
    requires PiecesOk(ps) && PiecesOk(qs)
    ensures Decode(ps + qs) == Decode(ps) + Decode(qs)
  {
    if ps == [] {
      assert ps + qs == qs;
    } else {
      hide PieceBytes;
      var all := ps + qs;
      assert all[0] == ps[0] && all[1..] == ps[1..] + qs;
      DecodeConcat(ps[1..], qs);
      Assoc(PieceBytes(ps[0]), Decode(ps[1..]), Decode(qs));
    }
  }

  lemma DecodeCons(p: Piece, rest: seq<Piece>)
    requires PieceOk(p) && PiecesOk(rest)
    ensures PiecesOk([p] + rest) && Decode([p] + rest) == PieceBytes(p) + Decode(rest)
    ensures Decode([]) == ""
  {
    hide PieceBytes;
    assert ([p] + rest)[1..] == rest;
  }

  lemma DecodeSnoc(ps: seq<Piece>, p: Piece)
    requires PiecesOk(ps) && PieceOk(p)
    ensures Decode(ps + [p]) == Decode(ps) + PieceBytes(p)
  {
    DecodeConcat(ps, [p]);
    assert Decode([p]) == PieceBytes(p) + Decode([]);
  }

  /** A decoded body is shorter than its spelling, so it fits in front of the read position. */
  lemma {:induction false} DecodeFits(text: string, i: nat)
    requires i <= |text|
    ensures var r := ScanString(text, i);
      && (r.Closed? ==> i + |Decode(r.pieces)| < r.end)
      && (r.Unclosed? ==> i + |Decode(r.pieces)| <= |text|)
    decreases |text| - i
  {
    hide Decode;
    DecodeCons(Raw(' '), []);
    if i < |text| && ScanPiece(text, i).Found? {
      var p, next := ScanPiece(text, i).piece, ScanPiece(text, i).next;
      DecodeFits(text, next);
      PieceFits(text, i);
      var r := ScanString(text, next);
      if !r.Bad? { DecodeCons(p, r.pieces); }
    }
  }

  lemma PieceFits(text: string, i: nat)
    requires i < |text| && ScanPiece(text, i).Found?
    ensures i + |PieceBytes(ScanPiece(text, i).piece)| <= ScanPiece(text, i).next
  {
  }

  /**
   The characters in the buffer from the start of the body to the first position the
   decoder leaves a terminator at: the decoded body, and behind an unclosed one whatever
   of the text the decoder's output has not covered.
   */
  function Stored(text: string, i: nat): string
    requires i <= |text| && !ScanString(text, i).Bad?
  {
    DecodeFits(text, i);
    match ScanString(text, i)
    case Closed(ps, _) => Decode(ps)
    case Unclosed(ps) => Decode(ps) + text[i + |Decode(ps)|..]
  }

  /** Where parsing goes on behind a body. */
  function BodyEnd(text: string, i: nat): (j: nat)
    requires i <= |text| && !ScanString(text, i).Bad?
    ensures i <= j <= |text|
  {
    match ScanString(text, i)
    case Closed(_, end) => end
    case Unclosed(_) => |text|
  }

  // ---------- scanning inverts spelling ----------

  lemma PieceSpelled(text: string, i: nat)
    requires i < |text| && ScanPiece(text, i).Found?
    ensures var r := ScanPiece(text, i);
      Occurs(text, i, SpellPiece(r.piece)) && r.next == i + |SpellPiece(r.piece)|
  {
    var p := ScanPiece(text, i).piece;
    if p.Unicode? {
      assert text[i..i + 6] == text[i..i + 2] + text[i + 2..i + 6];
      assert text[i..i + 2] == [BACKSLASH, 'u'];
    }
  }

  lemma PieceFound(text: string, i: nat, p: Piece)
    requires PieceOk(p) && Occurs(text, i, SpellPiece(p))
    ensures i < |text| && ScanPiece(text, i) == Found(p, i + |SpellPiece(p)|)
  {
    OccursAt(text, i, SpellPiece(p), 0);
    if p.Escape? {
      OccursAt(text, i, SpellPiece(p), 1);
    } else if p.Unicode? {
      OccursConcat(text, i, [BACKSLASH, 'u'], p.hex);
      OccursAt(text, i, [BACKSLASH, 'u'], 1);
      forall k: nat | k < 4 ensures text[i + 2 + k] == p.hex[k] { OccursAt(text, i + 2, p.hex, k); }
    }
  }

  lemma ScanUnfolds(text: string, i: nat)
    requires i < |text| && ScanPiece(text, i).Found?
    ensures ScanString(text, i) == Prepend([ScanPiece(text, i).piece], ScanString(text, ScanPiece(text, i).next))
  {
  }

  lemma ScanEnds(text: string, i: nat)
    requires i <= |text| && (i < |text| ==> !ScanPiece(text, i).Found?)
    ensures i == |text| ==> ScanString(text, i) == Unclosed([])
    ensures i < |text| ==>
      match ScanPiece(text, i)
      case Quote => text[i] == QUOTE && ScanString(text, i) == Closed([], i + 1)
      case Stray(at) => ScanString(text, i) == Bad(at)
  {
  }

  lemma SpellCons(p: Piece, rest: seq<Piece>)
    ensures SpellPieces([p] + rest) == SpellPiece(p) + SpellPieces(rest)
    ensures SpellPieces([]) == ""
  {
    assert ([p] + rest)[1..] == rest;
  }

  /** What a successful scan has read is the spelling of the pieces it returns, with its quote. */
  lemma {:induction false} BodySpelled(text: string, i: nat)
    requires i <= |text|
    ensures var r := ScanString(text, i);
      && (r.Closed? ==>
            Occurs(text, i, SpellPieces(r.pieces)) && r.end == i + |SpellPieces(r.pieces)| + 1
              && text[r.end - 1] == QUOTE)
      && (r.Unclosed? ==> Occurs(text, i, SpellPieces(r.pieces)) && |text| == i + |SpellPieces(r.pieces)|)
    decreases |text| - i
  {
    hide ScanString, SpellPieces, SpellPiece;
    SpellCons(Raw(' '), []);
    if i < |text| && ScanPiece(text, i).Found? {
      var next := ScanPiece(text, i).next;
      BodySpelled(text, next);
      BodySpelledOne(text, i);
    } else {
      ScanEnds(text, i);
    }
  }

  lemma BodySpelledOne(text: string, i: nat)
    requires i < |text| && ScanPiece(text, i).Found?
    ensures var p, next := ScanPiece(text, i).piece, ScanPiece(text, i).next;
      var r := ScanString(text, next);
      && ScanString(text, i) == Prepend([p], r) && next == i + |SpellPiece(p)|
      && (!r.Bad? ==>
            && |SpellPieces([p] + r.pieces)| == |SpellPiece(p)| + |SpellPieces(r.pieces)|
            && (Occurs(text, next, SpellPieces(r.pieces)) ==> Occurs(text, i, SpellPieces([p] + r.pieces))))
  {
    hide ScanString, ScanPiece, SpellPieces, SpellPiece, Occurs, Prepend;
    ScanUnfolds(text, i);
    PieceSpelled(text, i);
    var p, r := ScanPiece(text, i).piece, ScanString(text, ScanPiece(text, i).next);
    if !r.Bad? {
      SpellCons(p, r.pieces);
      OccursConcat(text, i, SpellPiece(p), SpellPieces(r.pieces));
    }
  }

  /** Pieces spelled at `i` are the first the scan finds. */
  lemma {:induction false} BodyFound(text: string, i: nat, ps: seq<Piece>)
    requires PiecesOk(ps) && Occurs(text, i, SpellPieces(ps))
    ensures i + |SpellPieces(ps)| <= |text|
    ensures ScanString(text, i) == Prepend(ps, ScanString(text, i + |SpellPieces(ps)|))
    decreases |ps|
  {
    hide ScanString, ScanPiece, Occurs, Prepend, SpellPieces, SpellPiece;
    OccursFits(text, i, SpellPieces(ps));
    if ps == [] {
      SpellCons(Raw(' '), []);
      PrependNone(ScanString(text, i));
    } else {
      var p, rest := ps[0], ps[1..];
      assert ps == [p] + rest;
      SpellCons(p, rest);
      OccursConcat(text, i, SpellPiece(p), SpellPieces(rest));
      PieceFound(text, i, p);
      ScanUnfolds(text, i);
      BodyFound(text, i + |SpellPiece(p)|, rest);
      PrependTwice([p], rest, ScanString(text, i + |SpellPieces(ps)|));
    }
  }

  lemma ClosedFound(text: string, i: nat, ps: seq<Piece>)
    requires PiecesOk(ps) && Occurs(text, i, SpellPieces(ps)) && At(text, i + |SpellPieces(ps)|) == QUOTE
    ensures ScanString(text, i) == Closed(ps, i + |SpellPieces(ps)| + 1)
  {
    var j := i + |SpellPieces(ps)|;
    assert ScanPiece(text, j) == Quote && ScanString(text, j) == Closed([], j + 1);
    BodyFound(text, i, ps);
    assert ps + [] == ps;
  }

  lemma UnclosedFound(text: string, i: nat, ps: seq<Piece>)
    requires PiecesOk(ps) && Occurs(text, i, SpellPieces(ps)) && |text| == i + |SpellPieces(ps)|
    ensures ScanString(text, i) == Unclosed(ps)
  {
    hide Occurs, SpellPieces, ScanString;
    ScanEnds(text, |text|);
    BodyFound(text, i, ps);
    assert ps + [] == ps;
  }

  // ---------- strings as RFC 8259 has them, in its own tables ----------

  const ESCAPABLE := "\"\\/bfnrt"
  const HEX_DIGITS := "0123456789ABCDEFabcdef"

  /** Section 7 of RFC 8259: what may stand unescaped, and what may be escaped. */
  predicate RfcPieceOk(p: Piece) {
    match p
    case Raw(c) => c as int >= 0x20 && c as int != 0x22 && c as int != 0x5C
    case Escape(c) => c in ESCAPABLE
    case Unicode(hex) =>
      |hex| == 4 && hex[0] in HEX_DIGITS && hex[1] in HEX_DIGITS && hex[2] in HEX_DIGITS && hex[3] in HEX_DIGITS
  }

  ghost predicate RfcPiecesOk(ps: seq<Piece>) {
    forall i :: 0 <= i < |ps| ==> RfcPieceOk(ps[i])
  }

  /** The control characters that have a letter, by their code points; the others stand for themselves. */
  function RfcEscape(c: char): char {
    match c
    case 'b' => 0x08 as char
    case 'f' => 0x0C as char
    case 'n' => 0x0A as char
    case 'r' => 0x0D as char
    case 't' => 0x09 as char
    case _ => c
  }

  function RfcDigit(c: char): nat {
    match c
    case '0' => 0
    case '1' => 1
    case '2' => 2
    case '3' => 3
    case '4' => 4
    case '5' => 5
    case '6' => 6
    case '7' => 7
    case '8' => 8
    case '9' => 9
    case 'A' | 'a' => 10
    case 'B' | 'b' => 11
    case 'C' | 'c' => 12
    case 'D' | 'd' => 13
    case 'E' | 'e' => 14
    case _ => 15
  }

  /** The code unit four hexadecimal digits name. */
  function RfcUnit(hex: string): (n: nat)
    requires |hex| == 4
    ensures n < 0x10000
  {
    ((RfcDigit(hex[0]) * 16 + RfcDigit(hex[1])) * 16 + RfcDigit(hex[2])) * 16 + RfcDigit(hex[3])
  }

  /** The bytes of section 3 of RFC 3629 for a code point of the first plane. */
  function RfcBytes(n: nat): string
    requires n < 0x10000
  {
    if n <= 0x7F then [Byte(n)]
    else if n <= 0x7FF then [Byte(192 + n / 64), Byte(128 + n % 64)]
    else [Byte(224 + n / 4096), Byte(128 + n / 64 % 64), Byte(128 + n % 64)]
  }

  function RfcPieceBytes(p: Piece): string
    requires RfcPieceOk(p)
  {
    match p
    case Raw(c) => [c]
    case Escape(c) => [RfcEscape(c)]
    case Unicode(hex) => RfcBytes(RfcUnit(hex))
  }

  /** The source takes what RFC 8259 takes, but for a raw DEL. */
  lemma PieceOkIff(p: Piece)
    ensures PieceOk(p) <==> RfcPieceOk(p) && p != Raw(127 as char)
  {
    if p.Unicode? && |p.hex| == 4 {
      DigitIsHex(p.hex[0]);
      DigitIsHex(p.hex[1]);
      DigitIsHex(p.hex[2]);
      DigitIsHex(p.hex[3]);
    }
  }

  lemma DigitIsHex(c: char)
    ensures IsXDigit(c) <==> c in HEX_DIGITS
  {
  }

  lemma DigitMeans(c: char)
    requires IsXDigit(c)
    ensures HexValue(c) == RfcDigit(c)
  {
  }

  lemma PiecesOkIff(ps: seq<Piece>)
    ensures PiecesOk(ps) <==> RfcPiecesOk(ps) && NoDelete(ps)
  {
    forall i | 0 <= i < |ps| ensures PieceOk(ps[i]) <==> RfcPieceOk(ps[i]) && ps[i] != Raw(127 as char) {
      PieceOkIff(ps[i]);
    }
  }

  ghost predicate NoDelete(ps: seq<Piece>) {
    forall i :: 0 <= i < |ps| ==> ps[i] != Raw(127 as char)
  }

  /** What the source stores for a piece is what RFC 8259 and RFC 3629 give it. */
  lemma PieceMeans(p: Piece)
    requires PieceOk(p)
    ensures RfcPieceOk(p) && PieceBytes(p) == RfcPieceBytes(p)
    ensures p.Unicode? ==> HexCode(p.hex) == RfcUnit(p.hex)
  {
    hide HexCode, RfcUnit, UnitBytes, RfcBytes, RfcPieceOk, ShortMeaning, RfcEscape, IsHex4;
    PieceOkIff(p);
    match p
    case Raw(_) =>
    case Escape(c) => EscapeMeans(c);
    case Unicode(hex) =>
      HexIsUnit(hex);
      SameBytes(HexCode(hex));
  }

  lemma EscapeMeans(c: char)
    requires IsShortEscape(c)
    ensures ShortMeaning(c) == RfcEscape(c)
  {
  }

  lemma SameBytes(n: nat)
    requires n < 0x10000
    ensures UnitBytes(n) == RfcBytes(n)
  {
  }

  lemma HexIsUnit(hex: string)
    requires IsHex4(hex)
    ensures HexCode(hex) == RfcUnit(hex)
  {
    hide HexValue, RfcDigit;
    DigitMeans(hex[0]);
    DigitMeans(hex[1]);
    DigitMeans(hex[2]);
    DigitMeans(hex[3]);
  }

  /** A body with a raw DEL in it is refused. */
  lemma {:induction false} DeleteRefused(text: string, i: nat, ps: seq<Piece>)
    requires RfcPiecesOk(ps) && !NoDelete(ps) && Occurs(text, i, SpellPieces(ps))
    ensures ScanString(text, i).Bad?
    decreases |ps|
  {
    hide RfcPieceOk, PieceOk;
    PieceOkIff(ps[0]);
    OccursConcat(text, i, SpellPiece(ps[0]), SpellPieces(ps[1..]));
    if ps[0] != Raw(127 as char) {
      PieceFound(text, i, ps[0]);
      assert NoDelete(ps) <==> NoDelete(ps[1..]);
      DeleteRefused(text, i + |SpellPiece(ps[0])|, ps[1..]);
    } else {
      OccursAt(text, i, SpellPiece(ps[0]), 0);
    }
  }

  predicate IsHigh(p: Piece) {
    p.Unicode? && |p.hex| == 4 && 0xD800 <= RfcUnit(p.hex) <= 0xDBFF
  }

  predicate IsLow(p: Piece) {
    p.Unicode? && |p.hex| == 4 && 0xDC00 <= RfcUnit(p.hex) <= 0xDFFF
  }

  predicate IsSurrogate(p: Piece) {
    IsHigh(p) || IsLow(p)
  }

  ghost predicate NoSurrogates(ps: seq<Piece>) {
    forall i :: 0 <= i < |ps| ==> !IsSurrogate(ps[i])
  }

  /** The four bytes of section 3 of RFC 3629 for a code point from 0x10000 on. */
  function FourBytes(n: nat): (s: string)
    requires 0x10000 <= n < 0x110000
    ensures |s| == 4
  {
    [Byte(240 + n / 0x40000), Byte(128 + n / 4096 % 64), Byte(128 + n / 64 % 64), Byte(128 + n % 64)]
  }

  /** The bytes RFC 8259 gives a body: surrogate pairs are one character, lone ones have no meaning. */
  function RfcDecode(ps: seq<Piece>): Option<string>
    requires RfcPiecesOk(ps)
  {
    if ps == [] then Some("")
    else if IsSurrogate(ps[0]) then
      if |ps| >= 2 && IsHigh(ps[0]) && IsLow(ps[1]) then
        var n := 0x10000 + (RfcUnit(ps[0].hex) - 0xD800) * 0x400 + (RfcUnit(ps[1].hex) - 0xDC00);
        var rest := RfcDecode(ps[2..]);
        if rest.None? then None else Some(FourBytes(n) + rest.value)
      else None
    else
      var rest := RfcDecode(ps[1..]);
      if rest.None? then None else Some(RfcPieceBytes(ps[0]) + rest.value)
  }

  /** The source gives a body its RFC 8259 meaning exactly if it has no surrogate escape. */
  lemma {:induction false} DecodeIsRfcIff(ps: seq<Piece>)
    requires PiecesOk(ps)
    ensures RfcPiecesOk(ps) && (RfcDecode(ps) == Some(Decode(ps)) <==> NoSurrogates(ps))
    decreases |ps|
  {
    PiecesOkIff(ps);
    if ps == [] {
    } else {
      PieceMeans(ps[0]);
      hide PieceBytes, RfcPieceBytes, RfcPieceOk;
      if IsSurrogate(ps[0]) {
        SurrogateStarts(ps);
      } else {
        DecodeIsRfcIff(ps[1..]);
        assert NoSurrogates(ps) <==> NoSurrogates(ps[1..]);
        if RfcDecode(ps).Some? {
          var a, b := RfcDecode(ps[1..]).value, Decode(ps[1..]);
          var p := PieceBytes(ps[0]);
          assert (p + a)[|p|..] == a && (p + b)[|p|..] == b;
        }
      }
    }
  }

  lemma SurrogateStarts(ps: seq<Piece>)
    requires PiecesOk(ps) && ps != [] && IsSurrogate(ps[0])
    ensures RfcPiecesOk(ps)
    ensures RfcDecode(ps).Some? ==> RfcDecode(ps).value != "" && 0xF0 <= RfcDecode(ps).value[0] as int
    ensures Decode(ps) != "" && Decode(ps)[0] as int == 0xED
  {
    PiecesOkIff(ps);
    PieceMeans(ps[0]);
    var n := RfcUnit(ps[0].hex);
    assert n / 4096 == 0xD;
    assert Decode(ps)[0] == PieceBytes(ps[0])[0];
  }

  /** Section 3 of RFC 3629 read backwards: a byte sequence of one, two or three bytes as a code unit. */
  function UnitOf(s: string): Option<nat> {
    if |s| == 1 && s[0] as int < 0x80 then Some(s[0] as int)
    else if |s| == 2 && 0xC0 <= s[0] as int < 0xE0 && 0x80 <= s[1] as int < 0xC0 then
      Some((s[0] as int - 0xC0) * 64 + (s[1] as int - 0x80))
    else if |s| == 3 && 0xE0 <= s[0] as int < 0xF0 && 0x80 <= s[1] as int < 0xC0 && 0x80 <= s[2] as int < 0xC0 then
      Some((s[0] as int - 0xE0) * 4096 + (s[1] as int - 0x80) * 64 + (s[2] as int - 0x80))
    else None
  }

  /** Every code unit is recovered from the bytes stored for it, and they are the fewest that can hold it. */
  lemma UnitBytesDecode(n: nat)
    requires n < 0x10000
    ensures UnitOf(UnitBytes(n)) == Some(n)
    ensures |UnitBytes(n)| == 2 ==> n >= 0x80
    ensures |UnitBytes(n)| == 3 ==> n >= 0x800
  {
    assert n / 64 == n / 4096 * 64 + n / 64 % 64;
  }

  // ---------- the in-place decoder ----------

  /** Four hexadecimal digits behind `\u`, or the position of the first other character. */
  method ReadHex4(buf: array<char>, ghost text: string, start: nat) returns (ok: bool, code: nat, s: nat)
    requires HoldsFrom(buf, text, start) && start <= |text|
    ensures s == HexStops(text, start) && ok == (s == start + 4)
    ensures ok ==> s <= |text| && IsHex4(text[start..s]) && code == HexCode(text[start..s])
  {
    s, code := start, 0;
    while s < start + 4
      invariant start <= s <= start + 4 && s <= |text|
      invariant forall i :: start <= i < s ==> IsXDigit(text[i])
      invariant s == start ==> code == 0
      invariant s == start + 1 ==> code == HexValue(text[start])
      invariant s == start + 2 ==> code == HexValue(text[start]) * 16 + HexValue(text[start + 1])
      invariant s == start + 3 ==>
                  code == HexValue(text[start]) * 256 + HexValue(text[start + 1]) * 16 + HexValue(text[start + 2])
      invariant s == start + 4 ==>
                  code == HexValue(text[start]) * 4096 + HexValue(text[start + 1]) * 256
                          + HexValue(text[start + 2]) * 16 + HexValue(text[start + 3])
    {
      if !IsXDigit(buf[s]) {
        return false, 0, s;
      }
      code := code * 16 + HexValue(buf[s]);
      s := s + 1;
    }
    ok := true;
  }

  /** Stores one code unit at `it` and returns the index of the last byte stored. */
  method WriteUnit(buf: array<char>, start: nat, code: nat) returns (it: nat)
    requires code < 0x10000 && start + |UnitBytes(code)| <= buf.Length
    modifies buf
    ensures it + 1 == start + |UnitBytes(code)|
    ensures Occurs(buf[..], start, UnitBytes(code))
    ensures forall k :: 0 <= k < buf.Length && (k < start || it < k) ==> buf[k] == old(buf[k])
  {
    it := start;
    if code < 0x80 {
      buf[it] := Byte(code);
    } else if code < 0x800 {
      buf[it] := Byte(0xC0 + code / 64);
      it := it + 1;
      buf[it] := Byte(0x80 + code % 64);
    } else {
      buf[it] := Byte(0xE0 + code / 4096);
      it := it + 1;
      buf[it] := Byte(0x80 + code / 64 % 64);
      it := it + 1;
      buf[it] := Byte(0x80 + code % 64);
    }
  }

  /** A backslash at `s0` whose meaning goes to `it0`; returns the last indices written and read. */
  method DecodeEscape(buf: array<char>, ghost text: string, it0: nat, s0: nat) returns (ok: bool, it: nat, s: nat)
    requires HoldsFrom(buf, text, s0) && it0 <= s0 < |text| && text[s0] == BACKSLASH
    modifies buf
    ensures match ScanPiece(text, s0)
      case Quote => false
      case Stray(at) => !ok && s == at && it == it0
      case Found(p, next) =>
        ok && s + 1 == next && it + 1 == it0 + |PieceBytes(p)| && Occurs(buf[..], it0, PieceBytes(p))
    ensures it0 <= it
    ensures forall k :: 0 <= k < buf.Length && (k < it0 || it < k) ==> buf[k] == old(buf[k])
  {
    hide UnitBytes, HexCode;
    it, s := it0, s0 + 1;
    var c := buf[s];
    if c == BACKSLASH || c == QUOTE || c == '/' {
      buf[it] := c;
    } else if c == 'b' {
      buf[it] := 8 as char;
    } else if c == 'f' {
      buf[it] := 12 as char;
    } else if c == 'n' {
      buf[it] := 10 as char;
    } else if c == 'r' {
      buf[it] := 13 as char;
    } else if c == 't' {
      buf[it] := 9 as char;
    } else if c == 'u' {
      var code, k;
      ok, code, k := ReadHex4(buf, text, s + 1);
      if !ok { return false, it, k; }
      s := k - 1;
      it := WriteUnit(buf, it, code);
    } else {
      return false, it, s;
    }
    ok := true;
  }

  /** One more piece behind the pieces already decoded. */
  lemma ScanStep(text: string, start: nat, done: seq<Piece>, s: nat)
    requires start <= |text| && s < |text| && PiecesOk(done)
    requires ScanString(text, start) == Prepend(done, ScanString(text, s))
    requires ScanPiece(text, s).Found?
    ensures var r := ScanPiece(text, s);
      && PiecesOk(done + [r.piece]) && Decode(done + [r.piece]) == Decode(done) + PieceBytes(r.piece)
      && ScanString(text, start) == Prepend(done + [r.piece], ScanString(text, r.next))
  {
    var r := ScanPiece(text, s);
    PrependTwice(done, [r.piece], ScanString(text, r.next));
    DecodeSnoc(done, r.piece);
  }

  /** The loop stops on the closing quote at `s`. */
  lemma ScanCloses(text: string, start: nat, done: seq<Piece>, s: nat)
    requires start <= |text| && s < |text| && PiecesOk(done)
    requires ScanString(text, start) == Prepend(done, ScanString(text, s)) && ScanPiece(text, s).Quote?
    ensures !ScanString(text, start).Bad? && Stored(text, start) == Decode(done) && BodyEnd(text, start) == s + 1
  {
    assert done + [] == done;
  }

  /** The loop stops on a character no body may have. */
  lemma ScanStrays(text: string, start: nat, done: seq<Piece>, s: nat)
    requires start <= |text| && s < |text| && PiecesOk(done)
    requires ScanString(text, start) == Prepend(done, ScanString(text, s)) && ScanPiece(text, s).Stray?
    ensures ScanString(text, start) == Bad(ScanPiece(text, s).at)
  {
  }

  /** The loop stops on the terminator of the text. */
  lemma ScanRunsOut(text: string, start: nat, done: seq<Piece>)
    requires start <= |text| && PiecesOk(done)
    requires ScanString(text, start) == Prepend(done, ScanString(text, |text|))
    ensures !ScanString(text, start).Bad? && BodyEnd(text, start) == |text|
    ensures start + |Decode(done)| <= |text|
    ensures Stored(text, start) == Decode(done) + text[start + |Decode(done)|..]
  {
    assert done + [] == done;
    assert ScanString(text, start) == Unclosed(done);
    DecodeFits(text, start);
  }

  /** `s` and a terminator behind it lie in memory at index `at`. */
  ghost predicate StoredAt(mem: string, at: nat, s: string) {
    Occurs(mem, at, s) && at + |s| < |mem| && mem[at + |s|] == '\0'
  }

  /** One round of the loop: the piece at `s0` goes to `it0`; `it` and `s` end up behind both. */
  method DecodePiece(buf: array<char>, ghost text: string, it0: nat, s0: nat)
    returns (more: bool, ok: bool, it: nat, s: nat)
    requires HoldsFrom(buf, text, it0) && it0 <= s0 < |text|
    modifies buf
    ensures match ScanPiece(text, s0)
      case Quote => !more && ok && s == s0 + 1 && it == it0 && buf[it0] == '\0'
      case Stray(at) => !more && !ok && s == at && it == it0
      case Found(p, next) => more && s == next && it == it0 + |PieceBytes(p)| && Occurs(buf[..], it0, PieceBytes(p))
    ensures it0 <= it <= s <= |text|
    ensures HoldsFrom(buf, text, s) && (more ==> HoldsFrom(buf, text, it))
    ensures forall k :: 0 <= k < it0 ==> buf[k] == old(buf[k])
  {
    hide UnitBytes, HexCode, ShortMeaning;
    it, s := it0, s0;
    var c := buf[s];
    buf[it] := c;
    ok, more := true, true;
    if c == BACKSLASH {
      ok, it, s := DecodeEscape(buf, text, it, s);
      if !ok { return false, false, it, s; }
    } else if IsControl(c) {
      return false, false, it, s;
    } else if c == QUOTE {
      buf[it] := '\0';
      return false, true, it, s + 1;
    }
    it, s := it + 1, s + 1;
  }

  /** The same round, with everything decoded so far kept in front of the new piece. */
  method AppendPiece(buf: array<char>, ghost text: string, ghost start: nat, ghost done: seq<Piece>, it0: nat, s0: nat)
    returns (more: bool, ok: bool, it: nat, s: nat)
    requires PiecesOk(done) && it0 == start + |Decode(done)| <= s0 < |text|
    requires HoldsFrom(buf, text, it0) && Occurs(buf[..], start, Decode(done))
    requires ScanString(text, start) == Prepend(done, ScanString(text, s0))
    modifies buf
    ensures it0 <= it <= s <= |text| && (more ==> s0 < s)
    ensures !more && ok ==> !ScanString(text, start).Bad? && s == BodyEnd(text, start)
    ensures !more && ok ==> StoredAt(buf[..], start, Stored(text, start))
    ensures !more && !ok ==> ScanString(text, start) == Bad(s)
    ensures more ==> ScanPiece(text, s0).Found?
    ensures more ==> var now := done + [ScanPiece(text, s0).piece];
      && PiecesOk(now) && it == start + |Decode(now)| && Occurs(buf[..], start, Decode(now))
      && ScanString(text, start) == Prepend(now, ScanString(text, s))
    ensures HoldsFrom(buf, text, s) && (more ==> HoldsFrom(buf, text, it))
    ensures forall k :: 0 <= k < start ==> buf[k] == old(buf[k])
  {
    hide ScanString, ScanPiece, Prepend, Decode, PieceBytes, Stored, BodyEnd;
    more, ok, it, s := DecodePiece(buf, text, it0, s0);
    assert Occurs(buf[..], start, Decode(done));
    if more {
      ScanStep(text, start, done, s0);
      OccursConcat(buf[..], start, Decode(done), PieceBytes(ScanPiece(text, s0).piece));
    } else if ok {
      ScanCloses(text, start, done, s0);
    } else {
      ScanStrays(text, start, done, s0);
    }
  }

  /** At the end of the text, what the output has not covered shows through up to the terminator. */
  lemma StoredUnclosed(mem: string, text: string, start: nat, done: seq<Piece>)
    requires start <= |text| < |mem| && PiecesOk(done) && start + |Decode(done)| <= |text|
    requires ScanString(text, start) == Prepend(done, ScanString(text, |text|))
    requires Occurs(mem, start, Decode(done))
    requires forall i :: start + |Decode(done)| <= i <= |text| ==> mem[i] == At(text, i)
    ensures !ScanString(text, start).Bad? && BodyEnd(text, start) == |text|
    ensures StoredAt(mem, start, Stored(text, start))
  {
    hide ScanString, Decode, Prepend;
    ScanRunsOut(text, start, done);
    var it := start + |Decode(done)|;
    OccursConcat(mem, start, Decode(done), text[it..]);
  }

  /**
   The string case of `jsonParse`, from behind the opening quote: the body is decoded over
   itself, the write index `it` never passing the read index `s`.
   */
  method DecodeString(buf: array<char>, ghost text: string, start: nat) returns (ok: bool, s: nat)
    requires HoldsFrom(buf, text, start) && start <= |text|
    modifies buf
    ensures ok <==> !ScanString(text, start).Bad?
    ensures !ok ==> s == ScanString(text, start).at
    ensures ok ==> s == BodyEnd(text, start) && StoredAt(buf[..], start, Stored(text, start))
    ensures s <= |text| && HoldsFrom(buf, text, s)
    ensures forall k :: 0 <= k < start ==> buf[k] == old(buf[k])
  {
    s := start;
    var it := start;
    ghost var done: seq<Piece> := [];
    PrependNone(ScanString(text, start));
    hide ScanString, ScanPiece, Prepend, Decode, PieceBytes, Stored, BodyEnd;
    while buf[s] != '\0'
      invariant start <= it <= s <= |text| && HoldsFrom(buf, text, it)
      invariant forall k :: 0 <= k < start ==> buf[k] == old(buf[k])
      invariant PiecesOk(done) && it == start + |Decode(done)| && Occurs(buf[..], start, Decode(done))
      invariant ScanString(text, start) == Prepend(done, ScanString(text, s))
      decreases |text| - s
    {
      ghost var piece := ScanPiece(text, s);
      var more, good;
      more, good, it, s := AppendPiece(buf, text, start, done, it, s);
      if !more {
        return good, s;
      }
      done := done + [piece.piece];
    }
    StoredUnclosed(buf[..], text, start, done);
    ok := true;
  }
}
