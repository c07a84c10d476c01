/**
 `jsonParse` of tools/gason.cpp as a step function over an immutable text: one step per
 round of its loop, with the open containers as an explicit stack.
 */
module JsonMachine {
  import opened Options
  import opened Texts
  import opened JsonChars
  import JsonNumber
  import JsonString

  datatype Value =
    | Number(num: real)
    | String(str: string)
    | Array(items: seq<Value>)
    | Object(members: seq<Member>)
    | True
    | False
    | Null

  datatype Member = Member(key: string, value: Value)

  /**
   The error codes of tools/gason.h. `PastEnd` is not one of them: it marks the runs in
   which the cursor steps over the terminator, where the source's behaviour is undefined.
   `AllocationFailure` depends on memory and is no outcome of the step function.
   */
  datatype Status =
    | Ok | BadNumber | BadString | BadIdentifier | StackOverflow | StackUnderflow
    | MismatchBracket | UnexpectedCharacter | UnquotedKey | BreakingBad | AllocationFailure
    | PastEnd

  const STACK_SIZE: nat := 32

  /** An open container: what it holds so far and, in an object, the key waiting for its value. */
  datatype Frame = InArray(items: seq<Value>) | InObject(members: seq<Member>, key: Option<string>)

  /** The cursor, the last token's start (`*endptr`), the open containers and the `separator` flag. */
  datatype State = State(at: nat, last: nat, stack: seq<Frame>, separator: bool)

  datatype Outcome = Running(state: State) | Halt(status: Status, end: nat, value: Option<Value>)

  // ---------- tokens ----------

  datatype Lexeme =
    | Scalar(value: Value, next: nat)
    | Open(isObject: bool)
    | Close(isObject: bool)
    | Colon
    | Comma
    | Broken(status: Status, at: nat)

  ghost function LexNumber(text: string, j: nat): (r: Lexeme)
    requires j < |text| && (text[j] == '-' || IsDigit(text[j]))
    ensures r.Scalar? || r.Broken?
    ensures r.Scalar? ==> j < r.next <= |text|
  {
    if text[j] == '-' && !IsDigit(At(text, j + 1)) && At(text, j + 1) != '.' then Broken(BadNumber, j + 1)
    else
      var r := JsonNumber.Scan(text, j);
      assert DigitsEnd(text, j) >= j && (IsDigit(text[j]) ==> DigitsEnd(text, j) >= j + 1);
      if IsDelim(At(text, r.1)) then Scalar(Number(JsonNumber.Value(r.0)), r.1) else Broken(BadNumber, r.1)
  }

  ghost function LexString(text: string, j: nat): (r: Lexeme)
    requires j < |text|
    ensures r.Scalar? || r.Broken?
    ensures r.Scalar? ==> j < r.next <= |text|
  {
    var r := JsonString.ScanString(text, j + 1);
    if r.Bad? then Broken(BadString, r.at)
    else
      var e := JsonString.BodyEnd(text, j + 1);
      if IsDelim(At(text, e)) then Scalar(String(CString(JsonString.Stored(text, j + 1))), e)
      else Broken(BadString, e)
  }

  ghost function LexWord(text: string, j: nat, word: string, value: Value): (r: Lexeme)
    requires j < |text| && word != ""
    ensures r.Scalar? || r.Broken?
    ensures r.Scalar? ==> j < r.next <= |text|
  {
    if Occurs(text, j, word) && IsDelim(At(text, j + |word|)) then Scalar(value, j + |word|)
    else Broken(BadIdentifier, j)
  }

  ghost function Lex(text: string, j: nat): (r: Lexeme)
    requires j < |text|
    ensures r.Scalar? ==> j < r.next <= |text|
  {
    if text[j] == '-' || IsDigit(text[j]) then LexNumber(text, j)
    else
    match text[j]
    case '"' => LexString(text, j)
    case 't' => LexWord(text, j, "true", True)
    case 'f' => LexWord(text, j, "false", False)
    case 'n' => LexWord(text, j, "null", Null)
    case '[' => Open(false)
    case '{' => Open(true)
    case ']' => Close(false)
    case '}' => Close(true)
    case ':' => Colon
    case ',' => Comma
    case _ => Broken(UnexpectedCharacter, j)
  }

  lemma LexStatus(t: string, j: nat)
    requires j < |t|
    ensures Lex(t, j).Broken? ==> Lex(t, j).status in {BadNumber, BadString, BadIdentifier, UnexpectedCharacter}
  {
  }

  // ---------- one round of the loop ----------

  function Top(stack: seq<Frame>): Frame
    requires stack != []
  {
    stack[|stack| - 1]
  }

  function WithTop(stack: seq<Frame>, f: Frame): seq<Frame>
    requires stack != []
  {
    stack[..|stack| - 1] + [f]
  }

  /** A value joins the innermost container; in an object that expects a key, only a string can. */
  function Join(stack: seq<Frame>, v: Value): Option<seq<Frame>>
    requires stack != []
  {
    match Top(stack)
    case InArray(items) => Some(WithTop(stack, InArray(items + [v])))
    case InObject(members, None) =>
      if v.String? then Some(WithTop(stack, InObject(members, Some(v.str)))) else None
    case InObject(members, Some(k)) => Some(WithTop(stack, InObject(members + [Member(k, v)], None)))
  }

  /** A finished value goes to the innermost open container, or ends the run if there is none. */
  function Deliver(stack: seq<Frame>, v: Value, next: nat, last: nat): Outcome {
    if stack == [] then Halt(Ok, next, Some(v))
    else
      match Join(stack, v)
      case Some(joined) => Running(State(next, last, joined, false))
      case None => Halt(UnquotedKey, last, None)
  }

  /** The value a container becomes when its bracket closes. */
  function Finished(f: Frame): Value {
    if f.InArray? then Array(f.items) else Object(f.members)
  }

  predicate KeyPending(stack: seq<Frame>) {
    stack != [] && Top(stack).InObject? && Top(stack).key.Some?
  }

  function CloseStatus(stack: seq<Frame>, isObject: bool): Status {
    if stack == [] then StackUnderflow
    else if Top(stack).InObject? != isObject then MismatchBracket
    else if KeyPending(stack) then UnexpectedCharacter
    else Ok
  }

  /** A closing bracket: the innermost container becomes a value of the next one out. */
  function CloseFrame(stack: seq<Frame>, isObject: bool, j: nat): Outcome {
    var status := CloseStatus(stack, isObject);
    if status != Ok then Halt(status, j, None)
    else Deliver(stack[..|stack| - 1], Finished(Top(stack)), j + 1, j)
  }

  function OpenFrame(stack: seq<Frame>, isObject: bool, j: nat): Outcome {
    if |stack| == STACK_SIZE then Halt(StackOverflow, j, None)
    else Running(State(j + 1, j, stack + [if isObject then InObject([], None) else InArray([])], true))
  }

  ghost function StepToken(text: string, j: nat, stack: seq<Frame>, separator: bool): Outcome
    requires j < |text|
  {
    match Lex(text, j)
    case Scalar(v, next) => Deliver(stack, v, next, j)
    case Open(isObject) => OpenFrame(stack, isObject, j)
    case Close(isObject) => CloseFrame(stack, isObject, j)
    case Colon =>
      if separator || !KeyPending(stack) then Halt(UnexpectedCharacter, j, None)
      else Running(State(j + 1, j, stack, true))
    case Comma =>
      if separator || KeyPending(stack) then Halt(UnexpectedCharacter, j, None)
      else Running(State(j + 1, j, stack, true))
    case Broken(status, at) => Halt(status, at, None)
  }

  ghost function Step(text: string, st: State): (r: Outcome)
    requires st.at < |text|
    ensures r.Running? ==> st.at < r.state.at <= |text|
  {
    var j := SkipSpace(text, st.at);
    if j == |text| then Halt(PastEnd, j, None)
    else StepToken(text, j, st.stack, st.separator)
  }

  ghost function Run(text: string, st: State): (r: Outcome)
    requires st.at <= |text|
    ensures r.Halt?
    decreases |text| - st.at
  {
    if st.at == |text| then Halt(BreakingBad, st.last, None)
    else Resume(text, st.at, Step(text, st))
  }

  /** The rest of the run behind a round that started at `from`. */
  ghost function Resume(text: string, from: nat, r: Outcome): (h: Outcome)
    requires from <= |text|
    requires r.Running? ==> from < r.state.at <= |text|
    ensures h.Halt?
    decreases |text| - from, 0
  {
    if r.Halt? then r else Run(text, r.state)
  }

  /** The outcome of a run that has reached `r`. */
  ghost function Continue(text: string, r: Outcome): (h: Outcome)
    requires r.Running? ==> r.state.at <= |text|
    ensures h.Halt?
  {
    if r.Halt? then r else Run(text, r.state)
  }

  /** White space, and then the token at `j`, make up one round. */
  lemma RunRound(text: string, st: State, j: nat)
    requires st.at < |text| && j == SkipSpace(text, st.at)
    ensures j == |text| ==> Run(text, st) == Halt(PastEnd, j, None)
    ensures j < |text| ==>
      var r := StepToken(text, j, st.stack, st.separator);
      && (r.Running? ==> j < r.state.at <= |text|)
      && Run(text, st) == Continue(text, r)
  {
    assert Step(text, st).Running? ==> st.at < Step(text, st).state.at <= |text|;
  }

  const START := State(0, 0, [], true)

  /** What `jsonParse` returns for a text: its error code, `*endptr` and, on success, the value. */
  ghost function Parse(text: string): (r: Outcome)
    ensures r.Halt?
  {
    Run(text, START)
  }
}
