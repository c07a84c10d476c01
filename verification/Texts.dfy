/**
 Texts as strings of one-byte characters: reading at a position, occurrences, digits and
 the numbers they spell. A `char` stands for one byte of the source throughout.
 */
module Texts {

  predicate IsDigit(c: char) {
    '0' <= c <= '9'
  }

  predicate IsXDigit(c: char) {
    IsDigit(c) || 'A' <= c <= 'F' || 'a' <= c <= 'f'
  }

  function Digit(c: char): (d: nat)
    requires IsDigit(c)
    ensures d < 10
  {
    c as int - '0' as int
  }

  function HexValue(c: char): (v: nat)
    requires IsXDigit(c)
    ensures v < 16
  {
    if c <= '9' then c as int - '0' as int
    else if c <= 'F' then c as int - 'A' as int + 10
    else c as int - 'a' as int + 10
  }

  /** The ten digits in their order. */
  lemma DigitIff(c: char)
    ensures IsDigit(c) <==> c in "0123456789"
    ensures IsDigit(c) ==> "0123456789"[Digit(c)] == c
  {
    var digits := "0123456789";
    if IsDigit(c) { assert digits[Digit(c)] == c; }
  }

  /** The six letters stand for ten to fifteen, in either case. */
  lemma XDigitIff(c: char)
    ensures IsXDigit(c) <==> c in "0123456789abcdef" || c in "ABCDEF"
    ensures IsXDigit(c) ==> "0123456789abcdef"[HexValue(c)] == c || "0123456789ABCDEF"[HexValue(c)] == c
  {
    var lower, upper := "0123456789abcdef", "0123456789ABCDEF";
    if IsXDigit(c) {
      assert lower[HexValue(c)] == c || upper[HexValue(c)] == c;
      assert "ABCDEF" == upper[10..];
    }
  }

  /** What the source reads through a pointer into the text, up to and including its terminator. */
  function At(text: string, i: nat): char {
    if i < |text| then text[i] else '\0'
  }

  ghost predicate NulFree(text: string) {
    forall i :: 0 <= i < |text| ==> text[i] != '\0'
  }

  /** What a C string starting at the front of `s` reads: everything before the first NUL. */
  function CString(s: string): string {
    if s == "" || s[0] == '\0' then "" else [s[0]] + CString(s[1..])
  }

  /** What stands behind the first NUL. */
  function BehindNul(s: string): string {
    if s == "" then "" else if s[0] == '\0' then s[1..] else BehindNul(s[1..])
  }

  lemma {:induction false} CStringIsWholeIff(s: string)
    ensures CString(s) == s <==> NulFree(s)
  {
    if s != "" && s[0] != '\0' {
      CStringIsWholeIff(s[1..]);
      assert s == [s[0]] + s[1..];
      assert NulFree(s) <==> NulFree(s[1..]);
    }
  }

  /** A NUL-free front is read whole, and reading goes on behind it. */
  lemma {:induction false} CStringBehind(a: string, b: string)
    requires NulFree(a)
    ensures CString(a + b) == a + CString(b)
    decreases |a|
  {
    if a == "" {
      assert a + b == b && "" + CString(b) == CString(b);
    } else {
      CStringBehind(a[1..], b);
      assert (a + b)[1..] == a[1..] + b;
      assert [a[0]] + (a[1..] + CString(b)) == a + CString(b);
    }
  }

  /** What is read is NUL-free, and it is the whole or stands in front of the first NUL. */
  lemma {:induction false} CStringCuts(s: string)
    ensures NulFree(CString(s)) && CString(s) <= s
    ensures !NulFree(s) ==> s == CString(s) + ("\0" + BehindNul(s))
    decreases |s|
  {
    if s != "" && s[0] != '\0' {
      CStringCuts(s[1..]);
      assert s == [s[0]] + s[1..];
      assert NulFree(s) <==> NulFree(s[1..]);
    } else {
      CStringIsWholeIff(s);
    }
  }

  lemma NulFreeConcat(a: string, b: string)
    ensures NulFree(a + b) <==> NulFree(a) && NulFree(b)
  {
    var ab := a + b;
    assert forall i :: 0 <= i < |a| ==> ab[i] == a[i];
    assert forall i :: 0 <= i < |b| ==> ab[|a| + i] == b[i];
  }

  lemma CStringOfNul(rest: string)
    ensures CString("\0" + rest) == ""
  {
  }

  lemma CStringStarts(s: string)
    requires s != "" && s[0] != '\0'
    ensures CString(s) != "" && CString(s)[0] == s[0]
  {
  }

  /** Nothing behind the first NUL is read. */
  lemma CStringStops(s: string, rest: string)
    requires !NulFree(s)
    ensures CString(s + rest) == CString(s)
  {
    hide CString, BehindNul, NulFree;
    CStringCuts(s);
    Assoc(CString(s), "\0" + BehindNul(s), rest);
    Assoc("\0", BehindNul(s), rest);
    CStringBehind(CString(s), "\0" + (BehindNul(s) + rest));
    CStringOfNul(BehindNul(s) + rest);
    assert CString(s) + "" == CString(s);
  }

  lemma DropConcat(a: string, b: string, k: nat)
    requires k <= |a| + |b|
    ensures (a + b)[k..] == if k >= |a| then b[k - |a|..] else a[k..] + b
  {
  }

  /** `p` stands in the text at position `i`. */
  ghost predicate Occurs(text: string, i: nat, p: string) {
    i + |p| <= |text| && forall k :: 0 <= k < |p| ==> text[i + k] == p[k]
  }

  lemma Assoc(a: string, b: string, c: string)
    ensures (a + b) + c == a + (b + c)
  {
  }

  lemma OccursConcat(text: string, i: nat, a: string, b: string)
    ensures Occurs(text, i, a + b) <==> Occurs(text, i, a) && Occurs(text, i + |a|, b)
  {
    var ab := a + b;
    if Occurs(text, i, ab) {
      forall k | 0 <= k < |a| ensures text[i + k] == a[k] { assert ab[k] == a[k]; }
      forall k | 0 <= k < |b| ensures text[i + |a| + k] == b[k]
      {
        assert ab[|a| + k] == b[k];
        assert text[i + (|a| + k)] == ab[|a| + k];
      }
    }
    if Occurs(text, i, a) && Occurs(text, i + |a|, b) {
      forall k | 0 <= k < |ab| ensures text[i + k] == ab[k] {
        if k >= |a| { assert text[i + |a| + (k - |a|)] == b[k - |a|]; }
      }
    }
  }

  lemma OccursAt(text: string, i: nat, p: string, k: nat)
    requires Occurs(text, i, p) && k < |p|
    ensures i + k < i + |p| <= |text| && text[i + k] == p[k]
  {
  }

  lemma OccursFits(text: string, i: nat, p: string)
    requires Occurs(text, i, p)
    ensures i + |p| <= |text|
  {
  }

  /** What occurs at `i` is the slice of its length there. */
  lemma SliceIs(text: string, i: nat, p: string)
    requires Occurs(text, i, p)
    ensures text[i..i + |p|] == p
  {
    var s := text[i..i + |p|];
    forall k | 0 <= k < |p| ensures s[k] == p[k] { assert text[i + k] == p[k]; }
  }

  lemma SliceSnoc(text: string, i: nat, j: nat)
    requires i <= j < |text|
    ensures text[i..j + 1] == text[i..j] + [text[j]]
  {
  }

  lemma SliceOccurs(text: string, i: nat, j: nat)
    requires i <= j <= |text|
    ensures Occurs(text, i, text[i..j])
  {
  }

  /** White space as C's `isspace` has it. */
  predicate IsSpace(c: char) {
    c == ' ' || '\t' <= c <= '\r'
  }

  /** Tab, line feed, vertical tab, form feed, carriage return and blank. */
  lemma SpaceIff(c: char)
    ensures IsSpace(c) <==> c as int in {9, 10, 11, 12, 13, 32}
  {
  }

  ghost predicate AllSpace(s: string) {
    forall i :: 0 <= i < |s| ==> IsSpace(s[i])
  }

  ghost predicate SpaceBetween(text: string, i: nat, j: nat) {
    i <= j <= |text| && forall k :: i <= k < j ==> IsSpace(text[k])
  }

  /** The first position from `i` on that is not white space. */
  function SkipSpace(text: string, i: nat): (j: nat)
    requires i <= |text|
    ensures SpaceBetween(text, i, j)
    ensures j < |text| ==> !IsSpace(text[j])
    decreases |text| - i
  {
    if i < |text| && IsSpace(text[i]) then SkipSpace(text, i + 1) else i
  }

  lemma {:induction false} SkipSpaceIs(text: string, i: nat, j: nat)
    requires SpaceBetween(text, i, j) && (j < |text| ==> !IsSpace(text[j]))
    ensures SkipSpace(text, i) == j
    decreases j - i
  {
    if i < j { SkipSpaceIs(text, i + 1, j); }
  }

  lemma SpaceOccurs(text: string, i: nat, ws: string)
    requires Occurs(text, i, ws) && AllSpace(ws)
    ensures SpaceBetween(text, i, i + |ws|)
  {
    forall k | i <= k < i + |ws| ensures IsSpace(text[k]) { assert text[i + (k - i)] == ws[k - i]; }
  }

  ghost predicate AllDigits(s: string) {
    forall i :: 0 <= i < |s| ==> IsDigit(s[i])
  }

  ghost predicate DigitsBetween(text: string, i: nat, j: nat) {
    i <= j <= |text| && forall k :: i <= k < j ==> IsDigit(text[k])
  }

  /** The first position from `i` on that is not a digit. */
  function DigitsEnd(text: string, i: nat): (j: nat)
    requires i <= |text|
    ensures DigitsBetween(text, i, j)
    ensures !IsDigit(At(text, j))
    decreases |text| - i
  {
    if i < |text| && IsDigit(text[i]) then DigitsEnd(text, i + 1) else i
  }

  lemma {:induction false} DigitsEndIs(text: string, i: nat, j: nat)
    requires DigitsBetween(text, i, j) && !IsDigit(At(text, j))
    ensures DigitsEnd(text, i) == j
    decreases j - i
  {
    if i < j { DigitsEndIs(text, i + 1, j); }
  }

  /** Digits that occur at `i` with no digit behind them are what scanning digits finds. */
  lemma DigitsOccur(text: string, i: nat, ds: string)
    requires Occurs(text, i, ds) && AllDigits(ds) && !IsDigit(At(text, i + |ds|))
    ensures DigitsEnd(text, i) == i + |ds| && text[i..i + |ds|] == ds
  {
    forall k | i <= k < i + |ds| ensures IsDigit(text[k]) { assert text[i + (k - i)] == ds[k - i]; }
    DigitsEndIs(text, i, i + |ds|);
    SliceIs(text, i, ds);
  }

  function Natural(digits: string): nat
    requires AllDigits(digits)
  {
    if digits == "" then 0
    else
      var n := |digits| - 1;
      assert digits[..n] == digits[0..n];
      Natural(digits[..n]) * 10 + Digit(digits[n])
  }

  lemma NaturalSnoc(digits: string, c: char)
    requires AllDigits(digits) && IsDigit(c)
    ensures AllDigits(digits + [c])
    ensures Natural(digits + [c]) == Natural(digits) * 10 + Digit(c)
  {
    assert (digits + [c])[..|digits|] == digits;
  }

  /** The decimal spelling of a number, without leading zeros. */
  function Decimal(n: nat): (digits: string)
    ensures digits != "" && AllDigits(digits)
  {
    var last := ['0' + (n % 10) as char];
    if n < 10 then last else Decimal(n / 10) + last
  }

  lemma {:induction false} DecimalIsNatural(n: nat)
    ensures Natural(Decimal(n)) == n
    decreases n
  {
    var last := '0' + (n % 10) as char;
    assert Digit(last) == n % 10;
    if n < 10 {
      NaturalSnoc("", last);
      assert "" + [last] == [last];
    } else {
      DecimalIsNatural(n / 10);
      NaturalSnoc(Decimal(n / 10), last);
    }
  }
}
