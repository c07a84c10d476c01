/**
 The request parser of server/request_parser.cpp: a character machine with 20 states that
 fills in a request, the loop that drives it over one read, and the driving of it over
 many reads.
 */
module HttpParser {
  import opened Texts

  datatype Header = Header(name: string, value: string)

  /** A request as a value; the parameters of its body are added by another member. */
  datatype Request = Request(verb: string, uri: string, major: int, minor: int, headers: seq<Header>)

  datatype State =
    | MethodStart | Method | Uri
    | VersionH | VersionT1 | VersionT2 | VersionP | VersionSlash
    | MajorStart | Major | MinorStart | Minor
    | Newline1 | HeaderLineStart | HeaderLws | HeaderName | SpaceBeforeValue | HeaderValue
    | Newline2 | Newline3

  datatype ResultType = Good | Bad | Indeterminate

  // ---------- character classes ----------

  predicate IsChar(c: char) {
    c as int <= 127
  }

  predicate IsCtl(c: char) {
    c as int <= 31 || c as int == 127
  }

  predicate IsTspecial(c: char) {
    c == '(' || c == ')' || c == '<' || c == '>' || c == '@' || c == ',' || c == ';' || c == ':' || c == '\\'
      || c == '\"'
    || c == '/' || c == '[' || c == ']' || c == '?' || c == '=' || c == '{' || c == '}' || c == ' ' || c == '\t'
  }

  /** A character of a token in the sense of section 2.2 of RFC 1945. */
  predicate IsToken(c: char) {
    IsChar(c) && !IsCtl(c) && !IsTspecial(c)
  }

  predicate IsBlank(c: char) {
    c == ' ' || c == '\t'
  }

  // ---------- one character ----------

  /** The machine's state together with the request filled in so far. */
  datatype Machine = Machine(state: State, req: Request)

  datatype Step = Step(result: ResultType, next: Machine)

  function Go(state: State, req: Request): Step {
    Step(Indeterminate, Machine(state, req))
  }

  function Expect(m: Machine, ok: bool, state: State): Step {
    if ok then Go(state, m.req) else Step(Bad, m)
  }

  function LastHeader(req: Request): Header {
    if req.headers == [] then Header("", "") else req.headers[|req.headers| - 1]
  }

  function SetLast(req: Request, h: Header): Request
    requires req.headers != []
  {
    req.(headers := req.headers[..|req.headers| - 1] + [h])
  }

  function PushName(req: Request, c: char): Request
    requires req.headers != []
  {
    SetLast(req, LastHeader(req).(name := LastHeader(req).name + [c]))
  }

  function PushValue(req: Request, c: char): Request
    requires req.headers != []
  {
    SetLast(req, LastHeader(req).(value := LastHeader(req).value + [c]))
  }

  /** The states in which the source takes `headers.back()`. */
  predicate UsesLastHeader(s: State) {
    s.HeaderLws? || s.HeaderName? || s.SpaceBeforeValue? || s.HeaderValue?
  }

  /** There is a header wherever the source uses the last one. */
  predicate Sane(m: Machine) {
    UsesLastHeader(m.state) ==> m.req.headers != []
  }

  function Consume(m: Machine, c: char): (r: Step)
    requires Sane(m)
    ensures Sane(r.next)
  {
    var req := m.req;
    match m.state
    case MethodStart => if !IsToken(c) then Step(Bad, m) else Go(Method, req.(verb := req.verb + [c]))
    case Method =>
      if c == ' ' then Go(Uri, req)
      else if !IsToken(c) then Step(Bad, m)
      else Go(Method, req.(verb := req.verb + [c]))
    case Uri =>
      if c == ' ' then Go(VersionH, req)
      else if IsCtl(c) then Step(Bad, m)
      else Go(Uri, req.(uri := req.uri + [c]))
    case VersionH => Expect(m, c == 'H', VersionT1)
    case VersionT1 => Expect(m, c == 'T', VersionT2)
    case VersionT2 => Expect(m, c == 'T', VersionP)
    case VersionP => Expect(m, c == 'P', VersionSlash)
    case VersionSlash => if c == '/' then Go(MajorStart, req.(major := 0, minor := 0)) else Step(Bad, m)
    case MajorStart =>
      if IsDigit(c) then Go(Major, req.(major := req.major * 10 + Digit(c))) else Step(Bad, m)
    case Major =>
      if c == '.' then Go(MinorStart, req)
      else if IsDigit(c) then Go(Major, req.(major := req.major * 10 + Digit(c)))
      else Step(Bad, m)
    case MinorStart =>
      if IsDigit(c) then Go(Minor, req.(minor := req.minor * 10 + Digit(c))) else Step(Bad, m)
    case Minor =>
      if c == '\r' then Go(Newline1, req)
      else if IsDigit(c) then Go(Minor, req.(minor := req.minor * 10 + Digit(c)))
      else Step(Bad, m)
    case Newline1 => Expect(m, c == '\n', HeaderLineStart)
    case HeaderLineStart =>
      if c == '\r' then Go(Newline3, req)
      else if req.headers != [] && IsBlank(c) then Go(HeaderLws, req)
      else if !IsToken(c) then Step(Bad, m)
      else Go(HeaderName, req.(headers := req.headers + [Header([c], "")]))
    case HeaderLws =>
      if c == '\r' then Go(Newline2, req)
      else if IsBlank(c) then Go(HeaderLws, req)
      else if IsCtl(c) then Step(Bad, m)
      else Go(HeaderValue, PushValue(req, c))
    case HeaderName =>
      if c == ':' then Go(SpaceBeforeValue, req)
      else if !IsToken(c) then Step(Bad, m)
      else Go(HeaderName, PushName(req, c))
    case SpaceBeforeValue => Expect(m, c == ' ', HeaderValue)
    case HeaderValue =>
      if c == '\r' then Go(Newline2, req)
      else if IsCtl(c) then Step(Bad, m)
      else Go(HeaderValue, PushValue(req, c))
    case Newline2 => Expect(m, c == '\n', HeaderLineStart)
    case Newline3 => Step(if c == '\n' then Good else Bad, m)
  }

  // ---------- many characters ----------

  /** How far a parse gets: its result, the position behind the last character taken, and the machine. */
  datatype Outcome = Outcome(result: ResultType, at: nat, machine: Machine)

  function Run(text: string, i: nat, m: Machine): (r: Outcome)
    requires Sane(m) && i <= |text|
    ensures Sane(r.machine) && i <= r.at <= |text|
    ensures r.result == Indeterminate ==> r.at == |text|
    decreases |text| - i
  {
    if i == |text| then Outcome(Indeterminate, i, m)
    else
      var s := Consume(m, text[i]);
      if s.result != Indeterminate then Outcome(s.result, i + 1, s.next) else Run(text, i + 1, s.next)
  }

  function Concat(chunks: seq<string>): string {
    if chunks == [] then "" else chunks[0] + Concat(chunks[1..])
  }

  /** The reads of a connection: parsing goes on with the next read as long as it is indeterminate. */
  function Feed(chunks: seq<string>, m: Machine): (r: Outcome)
    requires Sane(m)
    ensures Sane(r.machine)
    decreases |chunks|
  {
    if chunks == [] then Outcome(Indeterminate, 0, m)
    else
      var r := Run(chunks[0], 0, m);
      if r.result != Indeterminate then r
      else
        var rest := Feed(chunks[1..], r.machine);
        rest.(at := |chunks[0]| + rest.at)
  }

  lemma {:induction false} RunShift(a: string, b: string, i: nat, m: Machine)
    requires Sane(m) && i <= |b|
    ensures Run(a + b, |a| + i, m) == Run(b, i, m).(at := |a| + Run(b, i, m).at)
    decreases |b| - i
  {
    if i < |b| {
      assert (a + b)[|a| + i] == b[i];
      var s := Consume(m, b[i]);
      if s.result == Indeterminate { RunShift(a, b, i + 1, s.next); }
    }
  }

  lemma {:induction false} RunPrefix(a: string, b: string, i: nat, m: Machine)
    requires Sane(m) && i <= |a|
    ensures var r := Run(a, i, m);
      Run(a + b, i, m) == if r.result != Indeterminate then r else Run(a + b, |a|, r.machine)
    decreases |a| - i
  {
    if i < |a| {
      assert (a + b)[i] == a[i];
      var s := Consume(m, a[i]);
      if s.result == Indeterminate { RunPrefix(a, b, i + 1, s.next); }
    }
  }

  /** However the input is cut into reads, the result, the request and the stopping point are those of one parse. */
  lemma {:induction false} ChunkingIsInvisible(chunks: seq<string>, m: Machine)
    requires Sane(m)
    ensures Feed(chunks, m) == Run(Concat(chunks), 0, m)
    decreases |chunks|
  {
    if chunks != [] {
      var a, b := chunks[0], Concat(chunks[1..]);
      var r := Run(a, 0, m);
      RunPrefix(a, b, 0, m);
      if r.result == Indeterminate {
        RunShift(a, b, 0, r.machine);
        ChunkingIsInvisible(chunks[1..], r.machine);
      }
    }
  }

  /**
   A parse that ends before `n` characters are taken does not depend on what follows; one that goes
   on is indeterminate.
   */
  lemma PrefixOutcome(text: string, n: nat, m: Machine)
    requires Sane(m) && n <= |text|
    ensures var whole := Run(text, 0, m);
      if whole.result != Indeterminate && whole.at <= n then Run(text[..n], 0, m) == whole
      else Run(text[..n], 0, m).result == Indeterminate
  {
    assert text == text[..n] + text[n..];
    var part := Run(text[..n], 0, m);
    RunPrefix(text[..n], text[n..], 0, m);
    if part.result == Indeterminate {
      RunShift(text[..n], text[n..], 0, part.machine);
      StopsLater(text[n..], part.machine);
    }
  }

  lemma StopsLater(text: string, m: Machine)
    requires Sane(m)
    ensures Run(text, 0, m).result != Indeterminate ==> Run(text, 0, m).at > 0
  {
  }

  // ---------- the parser over a mutable request ----------

  class RequestObject {
    var verb: string
    var uri: string
    var major: int
    var minor: int
    var headers: seq<Header>
    var parameters: seq<Header>

    constructor ()
      ensures Value() == Request("", "", major, minor, []) && parameters == []
    {
      verb, uri, headers, parameters := "", "", [], [];
    }

    function Value(): Request
      reads this
    {
      Request(verb, uri, major, minor, headers)
    }
  }

  class RequestParser {
    var state: State

    constructor ()
      ensures state == MethodStart
    {
      state := MethodStart;
    }

    method Reset()
      modifies this
      ensures state == MethodStart
    {
      state := MethodStart;
    }

    function At(req: RequestObject): Machine
      reads this, req
    {
      Machine(state, req.Value())
    }

    /** server/request_parser.cpp `consume`. */
    method ConsumeChar(req: RequestObject, input: char) returns (result: ResultType)
      requires Sane(At(req))
      modifies this, req
      ensures var s := Consume(old(At(req)), input); result == s.result && At(req) == s.next
      ensures req.parameters == old(req.parameters)
    {
      result := Indeterminate;
      match state {
        case MethodStart =>
          if !IsToken(input) { return Bad; }
          state := Method;
          req.verb := req.verb + [input];
        case Method =>
          if input == ' ' {
            state := Uri;
          } else if !IsToken(input) {
            return Bad;
          } else {
            req.verb := req.verb + [input];
          }
        case Uri =>
          if input == ' ' {
            state := VersionH;
          } else if IsCtl(input) {
            return Bad;
          } else {
            req.uri := req.uri + [input];
          }
        case VersionH =>
          if input != 'H' { return Bad; }
          state := VersionT1;
        case VersionT1 =>
          if input != 'T' { return Bad; }
          state := VersionT2;
        case VersionT2 =>
          if input != 'T' { return Bad; }
          state := VersionP;
        case VersionP =>
          if input != 'P' { return Bad; }
          state := VersionSlash;
        case VersionSlash =>
          if input != '/' { return Bad; }
          req.major := 0;
          req.minor := 0;
          state := MajorStart;
        case MajorStart =>
          if !IsDigit(input) { return Bad; }
          req.major := req.major * 10 + Digit(input);
          state := Major;
        case Major =>
          if input == '.' {
            state := MinorStart;
          } else if IsDigit(input) {
            req.major := req.major * 10 + Digit(input);
          } else {
            return Bad;
          }
        case MinorStart =>
          if !IsDigit(input) { return Bad; }
          req.minor := req.minor * 10 + Digit(input);
          state := Minor;
        case Minor =>
          if input == '\r' {
            state := Newline1;
          } else if IsDigit(input) {
            req.minor := req.minor * 10 + Digit(input);
          } else {
            return Bad;
          }
        case Newline1 =>
          if input != '\n' { return Bad; }
          state := HeaderLineStart;
        case HeaderLineStart =>
          if input == '\r' {
            state := Newline3;
          } else if req.headers != [] && IsBlank(input) {
            state := HeaderLws;
          } else if !IsToken(input) {
            return Bad;
          } else {
            req.headers := req.headers + [Header([input], "")];
            state := HeaderName;
          }
        case HeaderLws =>
          if input == '\r' {
            state := Newline2;
          } else if IsBlank(input) {
          } else if IsCtl(input) {
            return Bad;
          } else {
            state := HeaderValue;
            AppendValue(req, input);
          }
        case HeaderName =>
          if input == ':' {
            state := SpaceBeforeValue;
          } else if !IsToken(input) {
            return Bad;
          } else {
            AppendName(req, input);
          }
        case SpaceBeforeValue =>
          if input != ' ' { return Bad; }
          state := HeaderValue;
        case HeaderValue =>
          if input == '\r' {
            state := Newline2;
          } else if IsCtl(input) {
            return Bad;
          } else {
            AppendValue(req, input);
          }
        case Newline2 =>
          if input != '\n' { return Bad; }
          state := HeaderLineStart;
        case Newline3 =>
          return if input == '\n' then Good else Bad;
      }
    }

    static method AppendName(req: RequestObject, c: char)
      requires req.headers != []
      modifies req
      ensures req.Value() == PushName(old(req.Value()), c) && req.parameters == old(req.parameters)
    {
      var n := |req.headers| - 1;
      req.headers := req.headers[..n] + [req.headers[n].(name := req.headers[n].name + [c])];
    }

    static method AppendValue(req: RequestObject, c: char)
      requires req.headers != []
      modifies req
      ensures req.Value() == PushValue(old(req.Value()), c) && req.parameters == old(req.parameters)
    {
      var n := |req.headers| - 1;
      req.headers := req.headers[..n] + [req.headers[n].(value := req.headers[n].value + [c])];
    }

    /** server/request_parser.hpp `parse` over one read. */
    method Parse(req: RequestObject, input: string) returns (result: ResultType, begin: nat)
      requires Sane(At(req))
      modifies this, req
      ensures Run(input, 0, old(At(req))) == Outcome(result, begin, At(req))
      ensures req.parameters == old(req.parameters)
    {
      begin := 0;
      while begin < |input|
        invariant begin <= |input| && Sane(At(req))
        invariant Run(input, begin, At(req)) == Run(input, 0, old(At(req)))
        invariant req.parameters == old(req.parameters)
      {
        result := ConsumeChar(req, input[begin]);
        begin := begin + 1;
        if result == Good || result == Bad { return; }
      }
      result := Indeterminate;
    }
  }

  /** server/connection.cpp `do_read`: parse what was read and read on as long as nothing is decided. */
  method DoRead(parser: RequestParser, req: RequestObject, chunks: seq<string>) returns (result: ResultType, at: nat)
    requires Sane(parser.At(req))
    modifies parser, req
    ensures Feed(chunks, old(parser.At(req))) == Outcome(result, at, parser.At(req))
    decreases |chunks|
  {
    if chunks == [] { return Indeterminate, 0; }
    result, at := parser.Parse(req, chunks[0]);
    if result == Indeterminate {
      var further: nat;
      result, further := DoRead(parser, req, chunks[1..]);
      at := at + further;
    }
  }
}
