/**
 Character classes of tools/gason.cpp and the view of a NUL-terminated buffer as a string.

 A `char` stands for one byte of the source. A C string is modelled by the NUL-free
 string in front of its terminator; reading at its length yields that terminator.
 */
module JsonChars {
  import opened Texts

  predicate IsDelim(c: char) {
    c == ',' || c == ':' || c == ']' || c == '}' || IsSpace(c) || c == '\0'
  }

  /** A number, a string or a word ends in front of these characters, and at the end of the text. */
  lemma DelimIff(c: char)
    ensures IsDelim(c) <==> c in ",:]}" || c as int in {0, 9, 10, 11, 12, 13, 32}
  {
    SpaceIff(c);
  }

  /** From index `k` on the array still holds `text` and its terminator. */
  ghost predicate HoldsFrom(buf: array<char>, text: string, k: nat)
    reads buf
  {
    && |text| < buf.Length
    && NulFree(text)
    && forall i :: k <= i <= |text| ==> buf[i] == At(text, i)
  }
}
