/**
 The error codes of `jsonParse`, each by the texts that get it: what is open in front of the
 offending character, and which character that is.
 */
module JsonErrors {
  import opened Options
  import opened Texts
  import opened JsonMachine
  import opened JsonGrammar
  import opened JsonComplete
  import opened JsonOpen
  import JsonNumber
  import JsonString

  /** White space and then the character at `j` stand behind the containers `ps`. */
  ghost predicate StandsAt(text: string, ps: seq<Part>, j: nat) {
    PartsAt(text, ps) && SpaceBetween(text, PartsEnd(ps), j) && j < |text| && !IsSpace(text[j])
  }

  predicate HasPendingKey(ps: seq<Part>) {
    ps != [] && var p := ps[|ps| - 1]; p.OpenObj? && p.pending.Some?
  }

  /** A closing bracket needs a container of its kind without a pending key, and that not where a key is due. */
  function ClosingError(ps: seq<Part>, isObject: bool): Option<Status> {
    if ps == [] then Some(StackUnderflow)
    else if ps[|ps| - 1].OpenObj? != isObject then Some(MismatchBracket)
    else if HasPendingKey(ps) then Some(UnexpectedCharacter)
    else if |ps| > 1 && KeyDue(ps[|ps| - 2]) then Some(UnquotedKey)
    else None
  }

  /** A number, string or word has to be spelled properly and, where a key is due, to be a string. */
  ghost function ScalarError(text: string, ps: seq<Part>, j: nat): Option<Status>
    requires j < |text|
  {
    if !exists c :: IsScalar(c) && SpelledAt(text, j, c) then
      Some(match text[j] case '"' => BadString case 't' | 'f' | 'n' => BadIdentifier case _ => BadNumber)
    else if ps != [] && KeyDue(ps[|ps| - 1]) && text[j] != '"' then Some(UnquotedKey)
    else None
  }

  /** What is wrong with the character at `j` behind the containers `ps`. */
  ghost function ErrorOf(text: string, ps: seq<Part>, j: nat): Option<Status>
    requires j < |text|
  {
    match text[j]
    case ']' => ClosingError(ps, false)
    case '}' => ClosingError(ps, true)
    case '[' | '{' => if |ps| == 32 then Some(StackOverflow) else None
    case ':' => if HasPendingKey(ps) && !Marked(ps) then None else Some(UnexpectedCharacter)
    case ',' => if HasPendingKey(ps) || Marked(ps) then Some(UnexpectedCharacter) else None
    case '"' | 't' | 'f' | 'n' | '-' => ScalarError(text, ps, j)
    case c => if c in "0123456789" then ScalarError(text, ps, j) else Some(UnexpectedCharacter)
  }

  /** The token at `j` halts the run with an error, or the run goes on or succeeds. */
  ghost predicate Errs(r: Outcome, error: Option<Status>, j: nat) {
    match error
    case None => r.Running? || r.status == Ok
    case Some(status) =>
      r.Halt? && r.status == status && if status in {BadNumber, BadString} then j < r.end else j == r.end
  }

  lemma Innermost(text: string, st: State, ps: seq<Part>)
    requires Reached(text, st, ps)
    ensures |st.stack| == |ps| <= 32 && KeyPending(st.stack) == HasPendingKey(ps)
    ensures ps != [] ==> Top(st.stack).InObject? == ps[|ps| - 1].OpenObj?
    ensures |ps| > 1 ==> PartHolds(ps[|ps| - 2], st.stack[|ps| - 2])
  {
    hide PartsAt;
    PartsFit(text, ps, Word(""));
    if ps != [] { assert PartHolds(ps[|ps| - 1], st.stack[|ps| - 1]); }
  }

  lemma ClosingErrs(text: string, st: State, ps: seq<Part>, j: nat)
    requires Reached(text, st, ps) && j < |text| && (text[j] == ']' || text[j] == '}')
    ensures Errs(StepToken(text, j, st.stack, st.separator), ClosingError(ps, text[j] == '}'), j)
  {
    hide StepToken, PartsAt, PartsHold;
    Innermost(text, st, ps);
    StepBracket(text, j, st.stack, st.separator);
    if ClosingError(ps, text[j] == '}') in {None, Some(UnquotedKey)} {
      ContainerErrs(st.stack[..|ps| - 1], Finished(Top(st.stack)), j + 1, j, ps);
    }
  }

  /** A finished container is no key. */
  lemma ContainerErrs(stack: seq<Frame>, v: Value, next: nat, last: nat, ps: seq<Part>)
    requires ps != [] && |stack| == |ps| - 1 && !v.String?
    requires |ps| > 1 ==> PartHolds(ps[|ps| - 2], stack[|ps| - 2])
    ensures Errs(Deliver(stack, v, next, last),
                 if |ps| > 1 && KeyDue(ps[|ps| - 2]) then Some(UnquotedKey) else None, last)
  {
  }

  lemma OpeningErrs(text: string, st: State, ps: seq<Part>, j: nat)
    requires Reached(text, st, ps) && j < |text| && (text[j] == '[' || text[j] == '{')
    ensures Errs(StepToken(text, j, st.stack, st.separator), ErrorOf(text, ps, j), j)
  {
    hide StepToken, PartsAt, PartsHold;
    Innermost(text, st, ps);
    StepBracket(text, j, st.stack, st.separator);
  }

  lemma MarkErrs(text: string, st: State, ps: seq<Part>, j: nat)
    requires Reached(text, st, ps) && j < |text| && (text[j] == ',' || text[j] == ':')
    ensures Errs(StepToken(text, j, st.stack, st.separator), ErrorOf(text, ps, j), j)
  {
    hide PartsAt, PartsHold, Lex, HasPendingKey, Marked;
    Innermost(text, st, ps);
    MarkLexed(text, j);
  }

  predicate StartsScalar(c: char) {
    c == '"' || c == 't' || c == 'f' || c == 'n' || c == '-' || IsDigit(c)
  }

  lemma OtherErrs(text: string, st: State, ps: seq<Part>, j: nat)
    requires j < |text| && text[j] !in "[]{},:" && !StartsScalar(text[j])
    ensures Errs(StepToken(text, j, st.stack, st.separator), ErrorOf(text, ps, j), j)
  {
    DigitIff(text[j]);
  }

  /** A token is broken exactly if no scalar is spelled there. */
  lemma BrokenIff(text: string, j: nat)
    requires j < |text| && StartsScalar(text[j])
    ensures Lex(text, j).Broken? <==> !exists c :: IsScalar(c) && SpelledAt(text, j, c)
    ensures Lex(text, j).Broken? || Lex(text, j).Scalar?
  {
    hide SpelledAt, LexNumber, LexString, LexWord;
    if Lex(text, j).Scalar? { var c := ScalarTree(text, j); }
    forall c | IsScalar(c) && SpelledAt(text, j, c) ensures Lex(text, j).Scalar? { ScalarFound(text, j, c); }
  }

  lemma BrokenWhere(text: string, j: nat)
    requires j < |text| && StartsScalar(text[j]) && Lex(text, j).Broken?
    ensures Errs(Halt(Lex(text, j).status, Lex(text, j).at, None),
                 Some(match text[j] case '"' => BadString case 't' | 'f' | 'n' => BadIdentifier case _ => BadNumber), j)
  {
  }

  lemma StringIsQuoted(text: string, j: nat)
    requires j < |text| && StartsScalar(text[j]) && Lex(text, j).Scalar?
    ensures Lex(text, j).value.String? <==> text[j] == '"'
  {
  }

  /** A scalar is taken by every container, but where a key is due only if it is a string. */
  lemma DeliveredErrs(text: string, st: State, ps: seq<Part>, v: Value, next: nat, last: nat)
    requires Reached(text, st, ps)
    ensures Errs(Deliver(st.stack, v, next, last),
                 if ps != [] && KeyDue(ps[|ps| - 1]) && !v.String? then Some(UnquotedKey) else None, last)
  {
    hide PartsAt;
    if ps != [] { assert PartHolds(ps[|ps| - 1], st.stack[|ps| - 1]); }
  }

  lemma ScalarErrs(text: string, st: State, ps: seq<Part>, j: nat)
    requires Reached(text, st, ps) && j < |text| && StartsScalar(text[j])
    ensures Errs(StepToken(text, j, st.stack, st.separator), ScalarError(text, ps, j), j)
  {
    hide Lex, PartsAt, PartsHold, Deliver, SpelledAt, Errs, KeyDue;
    BrokenIff(text, j);
    if Lex(text, j).Broken? {
      BrokenWhere(text, j);
    } else {
      StringIsQuoted(text, j);
      DeliveredErrs(text, st, ps, Lex(text, j).value, Lex(text, j).next, j);
    }
  }

  /** Each token behind some containers is taken, or halts the run with the error it is said to be. */
  lemma TokenErrs(text: string, st: State, ps: seq<Part>, j: nat)
    requires Reached(text, st, ps) && j < |text|
    ensures Errs(StepToken(text, j, st.stack, st.separator), ErrorOf(text, ps, j), j)
  {
    hide StepToken, Reached, Errs, ScalarError, ClosingError, HasPendingKey, Marked;
    DigitIff(text[j]);
    if text[j] == ']' || text[j] == '}' {
      ClosingErrs(text, st, ps, j);
    } else if text[j] == '[' || text[j] == '{' {
      OpeningErrs(text, st, ps, j);
    } else if text[j] == ',' || text[j] == ':' {
      MarkErrs(text, st, ps, j);
    } else if StartsScalar(text[j]) {
      ScalarErrs(text, st, ps, j);
    } else {
      OtherErrs(text, st, ps, j);
    }
  }

  /** The text has the error at `j`, behind the containers `ps`. */
  ghost predicate ErrorAt(text: string, ps: seq<Part>, j: nat, status: Status) {
    StandsAt(text, ps, j) && ErrorOf(text, ps, j) == Some(status)
  }

  /** Such a text gets that error code, and `*endptr` is the offending character or, in a broken token, behind it. */
  lemma ErrorReported(text: string, ps: seq<Part>, j: nat, status: Status)
    requires ErrorAt(text, ps, j, status)
    ensures Errs(Parse(text), Some(status), j)
  {
    hide Run, PartsAt, PartsHold, StepToken, ErrorOf, Marked;
    var st := RunParts(text, ps);
    TokenErrs(text, st, ps, j);
    RunToken(text, st, j);
  }

  /** For every error code: a text gets it exactly if it has such a place. */
  lemma ErrorIff(text: string, status: Status)
    requires status !in {Ok, BreakingBad, PastEnd}
    ensures Parse(text).status == status <==> exists ps, j :: ErrorAt(text, ps, j, status)
  {
    hide Run, ErrorAt, Reached, IsSettled, SkipSpace, StepToken, IsStall;
    FromStart(text);
    var st, ps, j := FindHalt(text, START, []);
    if j < |text| {
      HaltIsNoStall(text, st, j);
      TokenErrs(text, st, ps, j);
      HaltPlace(text, st, ps, j);
      if Parse(text).status == status { assert ErrorAt(text, ps, j, status); }
    } else {
      EndOfRun(text, st);
    }
    forall ps, j | ErrorAt(text, ps, j, status)
      ensures Parse(text).status == status
    {
      ErrorReported(text, ps, j, status);
    }
  }

  lemma HaltPlace(text: string, st: State, ps: seq<Part>, j: nat)
    requires Reached(text, st, ps) && j == SkipSpace(text, st.at) < |text|
    ensures StandsAt(text, ps, j)
    ensures forall status :: ErrorOf(text, ps, j) == Some(status) ==> ErrorAt(text, ps, j, status)
  {
    hide ErrorOf, PartsAt;
  }
}
