/**
 `jsonParse` of tools/gason.cpp over a mutable buffer and a heap of nodes. Its contract is
 the step function: same error code, same `*endptr`, and on success a node graph that
 reads back, through the overwritten buffer, as the value of the step function. Each node
 of the graph lies in a block of its own in the zones of the allocator.
 */
module JsonParser {
  import opened Options
  import opened Texts
  import opened JsonChars
  import opened JsonMachine
  import opened JsonHeap
  import opened JsonStack
  import opened JsonPlaced
  import JsonAllocator
  import JsonNumber
  import JsonString

  method SkipBlank(buf: array<char>, ghost text: string, start: nat) returns (s: nat)
    requires HoldsFrom(buf, text, start) && start <= |text|
    ensures s == SkipSpace(text, start)
  {
    s := start;
    while IsSpace(buf[s])
      invariant start <= s <= |text| && SkipSpace(text, s) == SkipSpace(text, start)
      decreases |text| - s
    {
      s := s + 1;
    }
  }

  /** A token that is a value by itself; `s` is the position behind it, or of the error. */
  ghost predicate TokenRead(text: string, j: nat, status: Status, o: JsonValue, s: nat, mem: string)
    requires j < |text|
  {
    match Lex(text, j)
    case Scalar(v, next) => status == Ok && s == next && Reads(o, v, Leaf, mem, next + 1)
    case Broken(e, at) => status == e && s == at
    case _ => false
  }

  method ReadNumber(buf: array<char>, ghost text: string, j: nat) returns (status: Status, o: JsonValue, s: nat)
    requires j < |text| && HoldsFrom(buf, text, j) && (text[j] == '-' || IsDigit(text[j]))
    ensures TokenRead(text, j, status, o, s, buf[..])
  {
    assert Lex(text, j) == LexNumber(text, j);
    assert buf[j + 1] == At(text, j + 1);
    o, s := NullValue, j + 1;
    if buf[j] == '-' && !IsDigit(buf[s]) && buf[s] != '.' {
      return BadNumber, o, s;
    }
    var num;
    num, s := JsonNumber.String2Double(buf, text, j);
    if !IsDelim(buf[s]) {
      return BadNumber, o, s;
    }
    return Ok, NumberValue(num), s;
  }

  lemma {:induction false} CStringReads(mem: string, at: nat, s: string, limit: nat)
    requires JsonString.StoredAt(mem, at, s) && at + |s| < limit
    ensures ReadsString(mem, at, CString(s), limit)
    decreases |s|
  {
    if s != "" && s[0] != '\0' {
      assert mem[at] == s[0];
      assert forall k :: 0 <= k < |s| - 1 ==> mem[at + 1 + k] == mem[at + (k + 1)] == s[1..][k];
      CStringReads(mem, at + 1, s[1..], limit);
      var c := CString(s);
      forall k | 0 <= k < |c| ensures mem[at + k] == c[k] {
        if k > 0 { assert mem[at + 1 + (k - 1)] == c[1..][k - 1]; }
      }
    } else {
      assert s != "" ==> mem[at + 0] == s[0];
    }
  }

  lemma StoredFits(text: string, i: nat)
    requires i <= |text| && !JsonString.ScanString(text, i).Bad?
    ensures i + |JsonString.Stored(text, i)| <= JsonString.BodyEnd(text, i)
  {
    hide JsonString.ScanString, JsonString.Decode;
    JsonString.DecodeFits(text, i);
  }

  method ReadString(buf: array<char>, ghost text: string, j: nat) returns (status: Status, o: JsonValue, s: nat)
    requires j < |text| && HoldsFrom(buf, text, j) && text[j] == '\"'
    modifies buf
    ensures TokenRead(text, j, status, o, s, buf[..])
    ensures status == Ok ==> HoldsFrom(buf, text, s)
    ensures forall k :: 0 <= k <= j ==> buf[k] == old(buf[k])
  {
    hide JsonString.ScanString, JsonString.Stored, JsonString.BodyEnd, JsonString.StoredAt, CString, ReadsString;
    o := StringValue(j + 1);
    var ok;
    ok, s := JsonString.DecodeString(buf, text, j + 1);
    if !ok || !IsDelim(buf[s]) {
      return BadString, o, s;
    }
    StoredFits(text, j + 1);
    CStringReads(buf[..], j + 1, JsonString.Stored(text, j + 1), s + 1);
    status := Ok;
  }

  method ReadWord(buf: array<char>, ghost text: string, j: nat, word: string, v: JsonValue)
    returns (status: Status, o: JsonValue, s: nat)
    requires j < |text| && HoldsFrom(buf, text, j) && NulFree(word)
    ensures if Occurs(text, j, word) && IsDelim(At(text, j + |word|)) then status == Ok && o == v && s == j + |word|
            else status == BadIdentifier && s == j
  {
    o := v;
    var k := 0;
    while k < |word|
      invariant k <= |word| && j + k <= |text|
      invariant forall i :: 0 <= i < k ==> text[j + i] == word[i]
    {
      if buf[j + k] != word[k] {
        assert j + k < |text| ==> text[j + k] != word[k];
        return BadIdentifier, o, j;
      }
      k := k + 1;
    }
    assert Occurs(text, j, word);
    if IsDelim(buf[j + |word|]) {
      return Ok, o, j + |word|;
    }
    return BadIdentifier, o, j;
  }

  /** A number, a string or one of the three words. */
  method ReadScalar(buf: array<char>, ghost text: string, j: nat) returns (status: Status, o: JsonValue, s: nat)
    requires j < |text| && HoldsFrom(buf, text, j)
    requires text[j] !in {'[', ']', '{', '}', ':', ','}
    modifies buf
    ensures TokenRead(text, j, status, o, s, buf[..])
    ensures status == Ok ==> Lex(text, j).Scalar? && j < s <= |text| && HoldsFrom(buf, text, s)
    ensures forall k :: 0 <= k <= j ==> buf[k] == old(buf[k])
  {
    match buf[j] {
      case '"' => status, o, s := ReadString(buf, text, j);
      case 't' => status, o, s := ReadWord(buf, text, j, "true", TrueValue);
      case 'f' => status, o, s := ReadWord(buf, text, j, "false", FalseValue);
      case 'n' => status, o, s := ReadWord(buf, text, j, "null", NullValue);
      case c =>
        if c == '-' || IsDigit(c) {
          status, o, s := ReadNumber(buf, text, j);
        } else {
          status, o, s := UnexpectedCharacter, NullValue, j;
        }
    }
  }

  /** From index `k` on, memory still is the text and its terminator. */
  ghost predicate Unread(mem: string, text: string, k: nat) {
    |text| < |mem| && NulFree(text) && forall i :: k <= i <= |text| ==> mem[i] == At(text, i)
  }

  /** What holds at the head of `jsonParse`'s loop, `mem` being the contents of the buffer. */
  ghost predicate AtLoopHead(mem: string, text: string, stack: ParseStack, st: State)
    reads stack, stack.tails, stack.tags, stack.keys, stack.owned
  {
    && st.at <= |text| && Unread(mem, text, st.at)
    && stack.Valid(st.stack, mem, st.at + 1)
    && (st.stack == [] ==> st.separator)
  }

  /** A finished value in front of position `s`, apart from the open containers. */
  ghost predicate ValueReady(mem: string, text: string, stack: ParseStack, s: nat, o: JsonValue, v: Value, sh: Shape,
                             frames: seq<Frame>)
    reads stack, stack.tails, stack.tags, stack.keys, stack.owned, Foot(sh)
  {
    && s <= |text| && Unread(mem, text, s)
    && stack.Valid(frames, mem, s + 1) && Reads(o, v, sh, mem, s + 1) && stack.Apart(sh)
  }

  /** A closing bracket at `j`. */
  method ReadBracket(ghost mem: string, ghost text: string, stack: ParseStack, j: nat, isObject: bool, ghost st: State)
    returns (status: Status, o: JsonValue, ghost sh: Shape)
    requires j < |text| && st.at <= j && AtLoopHead(mem, text, stack, st)
    modifies stack, stack.owned
    ensures stack.owned == old(stack.owned)
    ensures status == CloseStatus(st.stack, isObject)
    ensures status == Ok ==>
      && ValueReady(mem, text, stack, j + 1, o, Finished(Top(st.stack)), sh, st.stack[..|st.stack| - 1])
      && Foot(sh) <= stack.owned
  {
    hide ParseStack.Valid, Reads;
    status, o, sh := stack.Close(isObject, st.stack, mem, st.at + 1);
    if status == Ok {
      stack.Frame(st.stack[..|st.stack| - 1], mem, mem, st.at + 1, j + 2);
      ReadsFrame(o, Finished(Top(st.stack)), sh, mem, mem, st.at + 1, j + 2);
    }
  }

  /** A scalar token at `j`; what the open containers hold survives the overwriting of the buffer. */
  method ReadToken(buf: array<char>, ghost text: string, stack: ParseStack, j: nat, ghost st: State)
    returns (status: Status, o: JsonValue, s: nat, ghost mem: string)
    requires j < |text| && st.at <= j && AtLoopHead(buf[..], text, stack, st)
    requires text[j] !in {'[', ']', '{', '}', ':', ','}
    modifies buf
    ensures mem == buf[..] && (status == Ok ==> Lex(text, j).Scalar?)
    ensures match Lex(text, j)
      case Scalar(v, next) => status == Ok && s == next && ValueReady(mem, text, stack, s, o, v, Leaf, st.stack)
      case Broken(e, at) => status == e && s == at
      case _ => false
  {
    hide ParseStack.Valid, Lex;
    ghost var before := buf[..];
    status, o, s := ReadScalar(buf, text, j);
    mem := buf[..];
    if status == Ok {
      assert before[..st.at + 1] == mem[..st.at + 1];
      stack.Frame(st.stack, before, mem, st.at + 1, s + 1);
    }
  }

  /** A finished value joins the containers around it, unless memory runs out. */
  method FinishRound(a: JsonAllocator.Allocator, ghost mem: string, ghost text: string, stack: ParseStack, s: nat,
                     last: nat, o: JsonValue, ghost v: Value, ghost sh: Shape, ghost frames: seq<Frame>,
                     ghost before: multiset<JsonAllocator.Block>)
    returns (status: Status)
    requires frames != [] && ValueReady(mem, text, stack, s, o, v, sh, frames) && Foot(sh) <= stack.owned
    requires Holds(a, stack.owned, before)
    modifies stack, stack.tails, stack.keys, stack.owned, a, a.Zones()
    ensures Holds(a, stack.owned, before) && (status == AllocationFailure ==> IsExhausted(a))
    ensures fresh(a.Zones() - old(a.Zones()))
    ensures status == AllocationFailure ||
      match Deliver(frames, v, s, last)
      case Running(st) => status == Ok && AtLoopHead(mem, text, stack, st)
      case h => status == UnquotedKey && h == Halt(UnquotedKey, last, None)
    ensures stack.pos == old(stack.pos) && old(stack.owned) <= stack.owned && fresh(stack.owned - old(stack.owned))
  {
    hide ParseStack.Valid, Reads, Holds, IsExhausted;
    status := stack.Accept(a, o, v, sh, frames, mem, s + 1, before);
  }

  /** A value or a closing bracket at `j`, as a finished value if it is one. */
  method ReadValue(buf: array<char>, ghost text: string, stack: ParseStack, j: nat, ghost st: State)
    returns (status: Status, end: nat, s: nat, o: JsonValue, ghost sh: Shape, ghost mem: string,
             ghost frames: seq<Frame>, ghost v: Value)
    requires j < |text| && st.at <= j && AtLoopHead(buf[..], text, stack, st)
    requires text[j] !in {'[', '{', ':', ','}
    modifies buf, stack, stack.owned
    ensures mem == buf[..] && stack.owned == old(stack.owned)
    ensures status == Ok ==>
      && ValueReady(mem, text, stack, s, o, v, sh, frames) && Foot(sh) <= stack.owned
      && end == j && StepToken(text, j, st.stack, st.separator) == Deliver(frames, v, s, j)
    ensures status != Ok ==> StepToken(text, j, st.stack, st.separator) == Halt(status, end, None)
    ensures status !in {AllocationFailure, PastEnd, BreakingBad}
  {
    hide ParseStack.Valid, Reads, LexString, LexNumber, LexWord, Deliver;
    LexStatus(text, j);
    sh, end, mem, frames, v := Leaf, j, buf[..], [], Null;
    if buf[j] == ']' || buf[j] == '}' {
      status, o, sh := ReadBracket(mem, text, stack, j, buf[j] == '}', st);
      s := j + 1;
      if status == Ok { frames, v := st.stack[..|st.stack| - 1], Finished(Top(st.stack)); }
    } else {
      status, o, s, mem := ReadToken(buf, text, stack, j, st);
      if status == Ok {
        frames, v := st.stack, Lex(text, j).value;
      } else {
        end := s;
      }
    }
  }

  /** A value or a closing bracket at `j`, followed by what the loop does with a finished value. */
  method ValueRound(a: JsonAllocator.Allocator, buf: array<char>, ghost text: string, stack: ParseStack, j: nat,
                    ghost st: State, ghost before: multiset<JsonAllocator.Block>)
    returns (status: Status, end: nat, s: nat, o: JsonValue, ghost sh: Shape, ghost mem: string)
    requires j < |text| && st.at <= j && AtLoopHead(buf[..], text, stack, st)
    requires text[j] !in {'[', '{', ':', ','}
    requires Holds(a, stack.owned, before)
    modifies buf, stack, stack.tails, stack.keys, stack.owned, a, a.Zones()
    ensures mem == buf[..] && old(stack.owned) <= stack.owned && fresh(stack.owned - old(stack.owned))
    ensures Holds(a, stack.owned, before) && (status == AllocationFailure ==> IsExhausted(a) && end == j)
    ensures fresh(a.Zones() - old(a.Zones()))
    ensures status == AllocationFailure ||
      match StepToken(text, j, st.stack, st.separator)
      case Running(next) =>
        status == Ok && s == next.at && end == j && next.last == j && !next.separator && next.stack != []
        && stack.pos != -1 && AtLoopHead(mem, text, stack, next)
      case Halt(e, at, v) =>
        && status == e && end == at
        && (e == Ok ==> stack.pos == -1 && v.Some? && Reads(o, v.value, sh, mem, |mem|) && Foot(sh) <= stack.owned)
  {
    hide ParseStack.Valid, Reads, StepToken, Holds, IsExhausted;
    ghost var frames, v;
    status, end, s, o, sh, mem, frames, v := ReadValue(buf, text, stack, j, st);
    if status != Ok { return; }
    StackSize(stack, frames, mem, s + 1);
    if stack.pos == -1 {
      end := s;
      ReadsFrame(o, v, sh, mem, mem, s + 1, |mem|);
      return;
    }
    status := FinishRound(a, mem, text, stack, s, j, o, v, sh, frames, before);
    assert buf[..] == mem;
  }

  lemma StackSize(stack: ParseStack, frames: seq<Frame>, mem: string, limit: nat)
    requires stack.Valid(frames, mem, limit)
    ensures stack.pos + 1 == |frames| <= STACK_SIZE
  {
  }

  /** `:` and `,` look at the innermost key slot; a flag says whether a key is waiting there. */
  method KeyWaiting(stack: ParseStack, ghost frames: seq<Frame>, ghost mem: string, ghost limit: nat)
    returns (waiting: bool)
    requires stack.Valid(frames, mem, limit) && frames != []
    ensures waiting == KeyPending(frames)
  {
    var k := stack.pos;
    assert KeyReads(stack.keys[k], frames[k], mem, limit);
    waiting := stack.keys[k] != NO_KEY;
  }

  /** Brackets that open, colons and commas: the tokens that leave no value behind. */
  method MarkRound(buf: array<char>, ghost text: string, stack: ParseStack, j: nat, separator: bool, ghost st: State)
    returns (status: Status)
    requires j < |text| && st.at <= j && AtLoopHead(buf[..], text, stack, st) && separator == st.separator
    requires text[j] in {'[', '{', ':', ','}
    modifies stack, stack.tails, stack.tags, stack.keys
    ensures stack.owned == old(stack.owned) && status != AllocationFailure
    ensures match StepToken(text, j, st.stack, separator)
      case Running(next) => status == Ok && next.at == j + 1 && next.last == j && next.separator
        && AtLoopHead(buf[..], text, stack, next)
      case Halt(e, at, v) => status == e && e != Ok && at == j
  {
    hide ParseStack.Valid;
    ghost var mem := buf[..];
    StackSize(stack, st.stack, mem, st.at + 1);
    var c := buf[j];
    if c == '[' || c == '{' {
      if stack.pos + 1 == STACK_SIZE {
        return StackOverflow;
      }
      stack.Push(c == '{', st.stack, mem, st.at + 1);
      stack.Frame(st.stack + [if c == '{' then InObject([], None) else InArray([])], mem, mem, st.at + 1, j + 2);
      assert buf[..] == mem;
      return Ok;
    }
    if separator {
      return UnexpectedCharacter;
    }
    var waiting := KeyWaiting(stack, st.stack, mem, st.at + 1);
    if waiting != (c == ':') {
      return UnexpectedCharacter;
    }
    stack.Frame(st.stack, mem, mem, st.at + 1, j + 2);
    status := Ok;
  }

  /** The loop of `jsonParse`, from an empty stack on. */
  method ParseLoop(buf: array<char>, ghost text: string, stack: ParseStack, a: JsonAllocator.Allocator,
                   ghost before: multiset<JsonAllocator.Block>)
    returns (status: Status, end: nat, value: JsonValue, ghost shape: Shape)
    requires AtLoopHead(buf[..], text, stack, START) && Holds(a, stack.owned, before)
    modifies buf, stack, stack.tails, stack.tags, stack.keys, stack.owned, a, a.Zones()
    ensures status == AllocationFailure ==> IsExhausted(a)
    ensures status != AllocationFailure ==> status == Parse(text).status && end == Parse(text).end
    ensures status == Ok ==>
      && Parse(text).value.Some? && Reads(value, Parse(text).value.value, shape, buf[..], buf.Length)
      && Foot(shape) <= stack.owned
    ensures Holds(a, stack.owned, before)
  {
    hide ParseStack.Valid, Reads, StepToken, Holds, IsExhausted;
    var s, separator := 0, true;
    ghost var st, mem := START, buf[..];
    end, value, shape := 0, NullValue, Leaf;
    while buf[s] != '\0'
      invariant s == st.at && separator == st.separator && end == st.last && mem == buf[..]
      invariant AtLoopHead(mem, text, stack, st) && Run(text, st) == Parse(text)
      invariant Holds(a, stack.owned, before)
      invariant fresh(stack.owned - old(stack.owned)) && fresh(a.Zones() - old(a.Zones()))
      decreases |text| - s
    {
      var j := SkipBlank(buf, text, s);
      RunRound(text, st, j);
      if buf[j] == '\0' {
        return PastEnd, j, value, shape;
      }
      end := j;
      if buf[j] in {'[', '{', ':', ','} {
        status := MarkRound(buf, text, stack, j, separator, st);
        if status != Ok { return; }
        s, separator := j + 1, true;
      } else {
        status, end, s, value, shape, mem := ValueRound(a, buf, text, stack, j, st, before);
        if status != Ok || stack.pos == -1 { return; }
        separator := false;
      }
      st := StepToken(text, j, st.stack, st.separator).state;
    }
    status := BreakingBad;
  }

  /**
   tools/gason.cpp `jsonParse`. The status `PastEnd` stands for the runs whose cursor
   steps over the terminator: `Parse` says which texts those are. The nodes of the result
   lie in blocks of the allocator, each in its own and none in one handed out before.
   */
  method JsonParse(buf: array<char>, ghost text: string, a: JsonAllocator.Allocator)
    returns (status: Status, end: nat, value: JsonValue, ghost shape: Shape)
    requires HoldsFrom(buf, text, 0)
    requires Holds(a, {}, JsonAllocator.AllBlocks(a.Images()))
    modifies buf, a, a.Zones()
    ensures status == AllocationFailure ==> IsExhausted(a)
    ensures status != AllocationFailure ==> status == Parse(text).status && end == Parse(text).end
    ensures status == Ok ==>
      && Parse(text).value.Some? && Reads(value, Parse(text).value.value, shape, buf[..], buf.Length)
      && Holds(a, Foot(shape), old(JsonAllocator.AllBlocks(a.Images())))
    ensures Holds(a, {}, old(JsonAllocator.AllBlocks(a.Images())))
  {
    hide ParseStack.Valid, Reads, Holds, IsExhausted, JsonAllocator.AllBlocks, Parse;
    ghost var before := JsonAllocator.AllBlocks(a.Images());
    var stack := new ParseStack();
    stack.Frame([], [], buf[..], 0, 1);
    status, end, value, shape := ParseLoop(buf, text, stack, a, before);
    FewerHeld(a, stack.owned, {}, before);
    if status == Ok { FewerHeld(a, stack.owned, Foot(shape), before); }
  }

  lemma FewerHeld(a: JsonAllocator.Allocator, nodes: set<JsonNode>, fewer: set<JsonNode>,
                  before: multiset<JsonAllocator.Block>)
    requires Holds(a, nodes, before) && fewer <= nodes
    ensures Holds(a, fewer, before)
  {
    FewerNodes(JsonAllocator.AllBlocks(a.Images()), nodes, fewer, before);
  }
}
