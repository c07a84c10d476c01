/**
 Trailing white space and the tokens of `jsonParse`: every token but an unclosed string is
 read the same with and without it.
 */
module JsonPadding {
  import opened Texts
  import opened JsonChars
  import opened JsonMachine
  import JsonNumber
  import JsonString

  /** The quote at `k` opens a string that runs to the end of the text. */
  ghost predicate UnclosedAt(t: string, k: nat) {
    k < |t| && t[k] == '\"' && JsonString.ScanString(t, k + 1).Unclosed?
  }

  /** `t` with trailing white space `w` put behind it. */
  ghost predicate Padded(t: string, w: string, u: string) {
    u == t + w && w != "" && AllSpace(w) && (t != "" ==> !IsSpace(t[|t| - 1]))
  }

  lemma PaddedAt(t: string, w: string, u: string, i: nat)
    requires Padded(t, w, u)
    ensures i < |t| ==> At(u, i) == At(t, i)
    ensures i == |t| ==> IsSpace(At(u, i)) && At(t, i) == '\0'
    ensures i <= |t| ==> IsDelim(At(u, i)) == IsDelim(At(t, i)) && IsDigit(At(u, i)) == IsDigit(At(t, i))
    ensures i <= |t| ==> IsXDigit(At(u, i)) == IsXDigit(At(t, i))
  {
    assert i == |t| ==> u[i] == w[0];
  }

  // ---------- tokens do not notice the padding ----------

  lemma {:induction false} DigitsPadded(t: string, w: string, u: string, i: nat)
    requires Padded(t, w, u) && i <= |t|
    ensures DigitsEnd(u, i) == DigitsEnd(t, i)
    ensures JsonNumber.Digits(u, i) == JsonNumber.Digits(t, i)
  {
    var j := DigitsEnd(t, i);
    PaddedAt(t, w, u, j);
    assert forall k :: i <= k < j ==> u[k] == t[k];
    DigitsEndIs(u, i, j);
    assert u[i..j] == t[i..j];
  }

  lemma NumberPadded(t: string, w: string, u: string, i: nat)
    requires Padded(t, w, u) && i < |t|
    ensures JsonNumber.Scan(u, i) == JsonNumber.Scan(t, i)
  {
    var a := if At(t, i) == '-' then i + 1 else i;
    PaddedAt(t, w, u, i);
    DigitsPadded(t, w, u, a);
    var f := DigitsEnd(t, a);
    PaddedAt(t, w, u, f);
    if At(t, f) == '.' { DigitsPadded(t, w, u, f + 1); }
    var e := JsonNumber.ScanFraction(t, f).1;
    PaddedAt(t, w, u, e);
    assert JsonNumber.ScanFraction(u, f) == JsonNumber.ScanFraction(t, f);
    ExponentPadded(t, w, u, e);
  }

  lemma ExponentPadded(t: string, w: string, u: string, e: nat)
    requires Padded(t, w, u) && e <= |t|
    ensures JsonNumber.ScanExponent(u, e) == JsonNumber.ScanExponent(t, e)
  {
    PaddedAt(t, w, u, e);
    if At(t, e) == 'e' || At(t, e) == 'E' {
      PaddedAt(t, w, u, e + 1);
      DigitsPadded(t, w, u, JsonNumber.SignEnd(t, e + 1));
    }
  }

  lemma PiecePadded(t: string, w: string, u: string, i: nat)
    requires Padded(t, w, u) && i < |t|
    ensures JsonString.ScanPiece(u, i) == JsonString.ScanPiece(t, i)
  {
    PaddedAt(t, w, u, i);
    PaddedAt(t, w, u, i + 1);
    if t[i] == JsonString.BACKSLASH && At(t, i + 1) == 'u' {
      HexPadded(t, w, u, i + 2);
      if JsonString.HexStops(t, i + 2) == i + 6 {
        assert u[i + 2..i + 6] == t[i + 2..i + 6];
      }
    }
  }

  lemma HexPadded(t: string, w: string, u: string, i: nat)
    requires Padded(t, w, u) && i <= |t|
    ensures JsonString.HexStops(u, i) == JsonString.HexStops(t, i)
  {
    PaddedAt(t, w, u, i);
    PaddedAt(t, w, u, i + 1);
    PaddedAt(t, w, u, i + 2);
    PaddedAt(t, w, u, i + 3);
  }

  lemma {:induction false} BodyPadded(t: string, w: string, u: string, i: nat)
    requires Padded(t, w, u) && i <= |t| && !JsonString.ScanString(t, i).Unclosed?
    ensures JsonString.ScanString(u, i) == JsonString.ScanString(t, i)
    decreases |t| - i
  {
    PiecePadded(t, w, u, i);
    if JsonString.ScanPiece(t, i).Found? {
      BodyPadded(t, w, u, JsonString.ScanPiece(t, i).next);
    }
  }

  /** A string that runs to the end of `t` runs to the end of the padded text, or is refused. */
  lemma {:induction false} UnclosedPadded(t: string, w: string, u: string, i: nat)
    requires Padded(t, w, u) && i <= |t| && JsonString.ScanString(t, i).Unclosed?
    ensures !JsonString.ScanString(u, i).Closed?
    decreases |t| - i
  {
    if i < |t| {
      PiecePadded(t, w, u, i);
      UnclosedPadded(t, w, u, JsonString.ScanPiece(t, i).next);
    } else {
      SpacesNeverClose(u, i);
    }
  }

  lemma {:induction false} SpacesNeverClose(u: string, i: nat)
    requires i <= |u| && forall k :: i <= k < |u| ==> IsSpace(u[k])
    ensures !JsonString.ScanString(u, i).Closed?
    decreases |u| - i
  {
    if i < |u| && JsonString.ScanPiece(u, i).Found? { SpacesNeverClose(u, i + 1); }
  }

  lemma WordPadded(t: string, w: string, u: string, i: nat, word: string)
    requires Padded(t, w, u) && i < |t| && forall k :: 0 <= k < |word| ==> !IsSpace(word[k])
    ensures Occurs(u, i, word) <==> Occurs(t, i, word)
    ensures Occurs(t, i, word) ==> IsDelim(At(u, i + |word|)) == IsDelim(At(t, i + |word|))
  {
    if Occurs(u, i, word) {
      forall p | i <= p < i + |word| ensures !IsSpace(u[p]) { assert u[i + (p - i)] == word[p - i]; }
    }
    PaddedAt(t, w, u, |t|);
    PaddedAt(t, w, u, i + |word|);
  }

  lemma LexPadded(t: string, w: string, u: string, j: nat)
    requires Padded(t, w, u) && j < |t| && !UnclosedAt(t, j)
    ensures Lex(u, j) == Lex(t, j)
  {
    assert u[j] == t[j];
    if t[j] == '-' || IsDigit(t[j]) {
      NumberPadded(t, w, u, j);
      PaddedAt(t, w, u, j + 1);
      PaddedAt(t, w, u, JsonNumber.Scan(t, j).1);
    } else if t[j] == '\"' {
      StringPadded(t, w, u, j);
    } else if t[j] == 't' {
      WordPadded(t, w, u, j, "true");
    } else if t[j] == 'f' {
      WordPadded(t, w, u, j, "false");
    } else if t[j] == 'n' {
      WordPadded(t, w, u, j, "null");
    }
  }

  lemma StringPadded(t: string, w: string, u: string, j: nat)
    requires Padded(t, w, u) && j < |t| && !JsonString.ScanString(t, j + 1).Unclosed?
    ensures LexString(u, j) == LexString(t, j)
  {
    BodyPadded(t, w, u, j + 1);
    var r := JsonString.ScanString(t, j + 1);
    if r.Closed? { PaddedAt(t, w, u, r.end); }
  }
}
