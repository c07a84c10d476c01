/** Facts about sequences that are cheaper to cite than to find. */
module Sequences {
  lemma Associative<T>(a: seq<T>, b: seq<T>, c: seq<T>)
    ensures (a + b) + c == a + (b + c)
  {
  }

  lemma SplitAt<T>(s: seq<T>, i: nat)
    requires i < |s|
    ensures s[..i] + [s[i]] + s[i + 1..] == s
  {
  }

  lemma TakeSnoc<T>(s: seq<T>, x: T)
    ensures (s + [x])[..|s|] == s && |s + [x]| == |s| + 1 && (s + [x])[|s|] == x
  {
  }

  lemma SnocLast<T>(s: seq<T>)
    requires s != []
    ensures s[..|s| - 1] + [s[|s| - 1]] == s
  {
  }

  lemma DropOne<T>(s: seq<T>, i: nat)
    requires i < |s|
    ensures |s[i..]| == |s| - i && s[i..][0] == s[i] && s[i..][1..] == s[i + 1..]
  {
  }
}
