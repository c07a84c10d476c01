/**
 When the cursor of `jsonParse` steps over the terminator. The source's loop reads white
 space up to the terminator and then takes the terminator as a token, so trailing white
 space behind an unfinished document makes it read on behind its buffer. The lemmas say
 which texts do this.
 */
module JsonPastEnd {
  import opened Texts
  import opened JsonMachine
  import opened JsonPadding
  import JsonString

  // ---------- runs over the padded text ----------

  lemma SpacePadded(t: string, w: string, u: string, i: nat)
    requires Padded(t, w, u) && i < |t|
    ensures SkipSpace(t, i) < |t| && SkipSpace(u, i) == SkipSpace(t, i)
  {
    var j := SkipSpace(t, i);
    assert forall k :: i <= k <= j ==> u[k] == t[k];
    SkipSpaceIs(u, i, j);
  }

  /** An unclosed string takes the padding with it. */
  lemma RunUnclosed(t: string, w: string, u: string, st: State, j: nat)
    requires Padded(t, w, u) && st.at < |t| && j == SkipSpace(t, st.at) && UnclosedAt(t, j)
    ensures Run(u, st).status != PastEnd
    ensures Run(t, st).status == BreakingBad ==> Run(t, st).end == j
    ensures Run(t, st).status != PastEnd
  {
    hide Run, JsonString.ScanString, SkipSpace;
    SpacePadded(t, w, u, st.at);
    PaddedAt(t, w, u, j);
    UnclosedPadded(t, w, u, j + 1);
    RoundUnclosed(t, st, j);
    RoundUnclosed(u, st, j);
  }

  lemma RoundUnclosed(t: string, st: State, j: nat)
    requires st.at < |t| && j == SkipSpace(t, st.at) < |t| && t[j] == '\"' && !JsonString.ScanString(t, j + 1).Closed?
    ensures Run(t, st).status != PastEnd
    ensures Run(t, st).status == BreakingBad ==> Run(t, st).end == j
  {
    hide Lex;
    RunRound(t, st, j);
    UnclosedLex(t, j);
  }

  lemma UnclosedLex(t: string, j: nat)
    requires j < |t| && t[j] == '\"' && !JsonString.ScanString(t, j + 1).Closed?
    ensures Lex(t, j).Scalar? ==> Lex(t, j).next == |t|
    ensures Lex(t, j).Broken? ==> Lex(t, j).status == BadString
    ensures Lex(t, j).Scalar? || Lex(t, j).Broken?
  {
  }

  lemma {:induction false} RunPadded(t: string, w: string, u: string, st: State)
    requires Padded(t, w, u) && st.at <= |t| && (st.at == |t| ==> !UnclosedAt(t, st.last))
    ensures Run(u, st).status == PastEnd <==> Run(t, st).status == BreakingBad && !UnclosedAt(t, Run(t, st).end)
    decreases |t| - st.at
  {
    hide Lex, UnclosedAt, StepToken;
    if st.at == |t| {
      SkipSpaceIs(u, st.at, |u|);
      RunRound(u, st, |u|);
    } else {
      var j := SkipSpace(t, st.at);
      SpacePadded(t, w, u, st.at);
      if UnclosedAt(t, j) {
        RunUnclosed(t, w, u, st, j);
      } else {
        RunRound(t, st, j);
        RunRound(u, st, j);
        LexPadded(t, w, u, j);
        StepPadded(t, u, j, st.stack, st.separator);
        var r := StepToken(t, j, st.stack, st.separator);
        if r.Running? { RunPadded(t, w, u, r.state); }
      }
    }
  }

  /** A round depends on the text only through its token, records the token's start, and never runs out itself. */
  lemma StepPadded(t: string, u: string, j: nat, stack: seq<Frame>, separator: bool)
    requires j < |t| && j < |u| && Lex(u, j) == Lex(t, j)
    ensures StepToken(u, j, stack, separator) == StepToken(t, j, stack, separator)
    ensures var r := StepToken(t, j, stack, separator);
      if r.Running? then r.state.last == j else r.status != PastEnd && r.status != BreakingBad
  {
    LexStatus(t, j);
  }

  /**
   A text with trailing white space is run over exactly if the text without it is an
   unfinished document whose last token (where `*endptr` points) is not an unclosed string.
   */
  lemma PaddingRunsOverIff(t: string, w: string)
    requires w != "" && AllSpace(w) && (t != "" ==> !IsSpace(t[|t| - 1]))
    ensures Parse(t + w).status == PastEnd <==>
            Parse(t).status == BreakingBad && !UnclosedAt(t, Parse(t).end)
  {
    RunPadded(t, w, t + w, START);
  }

  /** A text that does not end in white space is never run over. */
  lemma {:induction false} NoPaddingIsSafe(t: string, st: State)
    requires st.at <= |t| && (t != "" ==> !IsSpace(t[|t| - 1]))
    ensures Run(t, st).status != PastEnd
    decreases |t| - st.at
  {
    if st.at < |t| {
      var j := SkipSpace(t, st.at);
      RunRound(t, st, j);
      StepPadded(t, t, j, st.stack, st.separator);
      var r := StepToken(t, j, st.stack, st.separator);
      if r.Running? { NoPaddingIsSafe(t, r.state); }
    }
  }

  /** The smallest document that is run over: an opening bracket and a blank. */
  lemma BracketAndBlank()
    ensures Parse("[ ").status == PastEnd && Parse("[").status == BreakingBad
  {
    RunRound("[", START, 0);
    PaddingRunsOverIff("[", " ");
    assert "[" + " " == "[ ";
  }
}
