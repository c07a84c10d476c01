/**
 Soundness of the request parser: behind every good parse there is a sentence. Together with
 the other direction this makes the sentences its exact language, and a parse is bad exactly
 when no continuation could have become one.
 */
module HttpSound {
  import opened Texts
  import opened HttpParser
  import opened HttpLanguage

  // ---------- whatever is good is a sentence ----------

  ghost predicate IsGood(m: Machine, t: string) {
    Sane(m) && Run(t, 0, m).result == Good
  }

  lemma GoodBehind(m: Machine, a: string, next: Machine, rest: string)
    requires Eats(m, a, next)
    ensures IsGood(m, a + rest) <==> IsGood(next, rest)
  {
    RunPrefix(a, rest, 0, m);
    RunShift(a, rest, 0, next);
  }

  /** A good parse is not over before its end and no character on its way is refused. */
  lemma FindOne(m: Machine, t: string)
    requires IsGood(m, t)
    ensures t != "" && Consume(m, t[0]).result != Bad
    ensures Consume(m, t[0]).result == Indeterminate ==> IsGood(Consume(m, t[0]).next, t[1..])
  {
    if Consume(m, t[0]).result == Indeterminate {
      EatsOne(m, t[0]);
      assert t == [t[0]] + t[1..];
      GoodBehind(m, [t[0]], Consume(m, t[0]).next, t[1..]);
    }
  }

  lemma FindTwo(m: Machine, t: string)
    requires IsGood(m, t) && Consume(m, t[0]).result == Indeterminate
    ensures |t| >= 2 && Consume(Consume(m, t[0]).next, t[1]).result != Bad
    ensures Consume(Consume(m, t[0]).next, t[1]).result == Indeterminate
            ==> IsGood(Consume(Consume(m, t[0]).next, t[1]).next, t[2..])
  {
    FindOne(m, t);
    FindOne(Consume(m, t[0]).next, t[1..]);
    assert t[1..][1..] == t[2..];
  }

  /** What a collecting state takes is a longest span of its characters. */
  lemma {:induction false} SplitSpan(state: State, t: string) returns (a: string, rest: string)
    ensures t == a + rest && TakesAll(state, a)
    ensures rest != "" ==> !Takes(state, rest[0])
    decreases |t|
  {
    if t == "" || !Takes(state, t[0]) {
      a, rest := "", t;
    } else {
      a, rest := SplitSpan(state, t[1..]);
      a := [t[0]] + a;
      assert t == [t[0]] + t[1..];
    }
  }

  lemma FindSpan(m: Machine, t: string) returns (a: string, rest: string)
    requires IsGood(m, t)
    ensures t == a + rest && TakesAll(m.state, a)
    ensures rest != "" && !Takes(m.state, rest[0])
    ensures IsGood(Collected(m, a), rest)
  {
    a, rest := SplitSpan(m.state, t);
    EatsSpan(m, a);
    GoodBehind(m, a, Collected(m, a), rest);
    FindOne(Collected(m, a), rest);
  }

  lemma FindLineEnd(m: Machine, t: string)
    requires IsGood(m, t) && t != ""
    requires m.state.HeaderLws? || m.state.HeaderValue? || m.state.Minor?
    requires !Takes(m.state, t[0]) && (m.state.HeaderLws? ==> IsCtl(t[0]))
    ensures |t| >= 2 && t == "\r\n" + t[2..] && IsGood(AtLine(m.req), t[2..])
  {
    hide Run;
    FindOne(m, t);
    FindTwo(m, t);
    assert t == [t[0], t[1]] + t[2..];
  }

  lemma FindRest(req: Request, t: string, state: State) returns (a: string, rest: string)
    requires state.HeaderValue? || (state.HeaderLws? && t != "" && !Takes(state, t[0]))
    requires req.headers != [] && IsGood(Machine(state, req), t)
    ensures t == a + ("\r\n" + rest) && IsValueText(a) && (state.HeaderLws? && a != "" ==> a[0] != ' ')
    ensures IsGood(AtLine(Grown(req, a)), rest)
  {
    hide Run, IsTokenChar, IsControl, IsWhite;
    ClassesAgree();
    var m := Machine(state, req);
    FindOne(m, t);
    if state.HeaderValue? || IsCtl(t[0]) {
      if state.HeaderValue? { a, rest := FindSpan(m, t); } else { a, rest := "", t; }
      CollectedNone(Machine(HeaderValue, req));
      FindLineEnd(Machine(state, Grown(req, a)), rest);
      rest := rest[2..];
    } else {
      var v: string;
      var next := Grown(req, [t[0]]);
      v, rest := FindSpan(Machine(HeaderValue, next), t[1..]);
      FindLineEnd(Machine(HeaderValue, Grown(next, v)), rest);
      GrownTwice(req, [t[0]], v);
      a, rest := [t[0]] + v, rest[2..];
      assert t == [t[0]] + t[1..];
    }
  }

  lemma FindFold(req: Request, t: string) returns (f: Fold, rest: string)
    requires req.headers != [] && IsGood(AtLine(req), t) && IsBlank(t[0])
    ensures IsFold(f) && t == f.blanks + (f.rest + ("\r\n" + rest))
    ensures IsGood(AtLine(Grown(req, f.rest)), rest)
  {
    hide Run, IsTokenChar, IsControl, IsWhite;
    ClassesAgree();
    FindOne(AtLine(req), t);
    var bs, behind := FindSpan(Machine(HeaderLws, req), t[1..]);
    var a, after := FindRest(req, behind, HeaderLws);
    f, rest := Fold([t[0]] + bs, a), after;
    assert t == [t[0]] + t[1..];
  }

  lemma {:induction false} FindFolds(req: Request, t: string) returns (folds: seq<Fold>, rest: string)
    requires req.headers != [] && IsGood(AtLine(req), t)
    ensures forall k :: 0 <= k < |folds| ==> IsFold(folds[k])
    ensures t == PrintFolds(folds) + rest && rest != "" && !IsBlank(rest[0])
    ensures IsGood(AtLine(Grown(req, Rests(folds))), rest)
    decreases |t|
  {
    hide IsTokenChar, IsControl, IsWhite;
    ClassesAgree();
    FindOne(AtLine(req), t);
    if !IsBlank(t[0]) {
      folds, rest := [], t;
      CollectedNone(Machine(HeaderValue, req));
    } else {
      var f, behind := FindFold(req, t);
      var fs, after := FindFolds(Grown(req, f.rest), behind);
      folds, rest := [f] + fs, after;
      GrownTwice(req, f.rest, Rests(fs));
      FoldsSpelling(f, fs, after);
    }
  }

  lemma FoldsSpelling(f: Fold, fs: seq<Fold>, rest: string)
    ensures f.blanks + (f.rest + ("\r\n" + (PrintFolds(fs) + rest))) == PrintFolds([f] + fs) + rest
  {
    Assoc(f.blanks, f.rest + ("\r\n" + PrintFolds(fs)), rest);
    Assoc(f.rest, "\r\n" + PrintFolds(fs), rest);
    Assoc("\r\n", PrintFolds(fs), rest);
  }

  /** A header name, its colon and the blank behind it. */
  lemma FindName(req: Request, t: string) returns (name: string, rest: string)
    requires IsGood(AtLine(req), t) && t[0] != '\r' && !IsBlank(t[0])
    ensures IsTokenText(name) && t == name + (": " + rest)
    ensures IsGood(Machine(HeaderValue, WithHeaders(req, [Header(name, "")])), rest)
  {
    hide Run, IsTokenChar, IsControl, IsWhite;
    ClassesAgree();
    FindOne(AtLine(req), t);
    var first := Machine(HeaderName, WithHeaders(req, [Header([t[0]], "")]));
    var n, behind := FindSpan(first, t[1..]);
    name := [t[0]] + n;
    var named := Machine(HeaderName, WithHeaders(req, [Header(name, "")]));
    assert Collected(first, n) == named;
    FindOne(named, behind);
    FindTwo(named, behind);
    rest := behind[2..];
    assert behind == ": " + rest && t == [t[0]] + t[1..];
    Assoc([t[0]], n, ": " + rest);
  }

  lemma FindLine(req: Request, t: string) returns (l: Line, rest: string)
    requires IsGood(AtLine(req), t) && t[0] != '\r' && !IsBlank(t[0])
    ensures IsLine(l) && t == PrintLine(l) + rest && rest != "" && !IsBlank(rest[0])
    ensures |rest| < |t| && IsGood(AtLine(WithHeaders(req, [LineMeaning(l)])), rest)
  {
    hide Run, IsTokenText, IsValueText, IsFold;
    var name, behindName := FindName(req, t);
    var named := WithHeaders(req, [Header(name, "")]);
    var value, behindValue := FindRest(named, behindName, HeaderValue);
    var folds, after := FindFolds(Grown(named, value), behindValue);
    l, rest := Line(name, value, folds), after;
    GrownTwice(named, value, Rests(folds));
    assert "" + (value + Rests(folds)) == value + Rests(folds);
    assert Grown(named, value + Rests(folds)) == WithHeaders(req, [LineMeaning(l)]);
    FoundSpelling(name, value, folds, rest);
  }

  lemma FoundSpelling(name: string, value: string, folds: seq<Fold>, rest: string)
    ensures name + (": " + (value + ("\r\n" + (PrintFolds(folds) + rest))))
         == PrintLine(Line(name, value, folds)) + rest
  {
    var fs := PrintFolds(folds);
    Assoc(name, ": " + (value + ("\r\n" + fs)), rest);
    Assoc(": ", value + ("\r\n" + fs), rest);
    Assoc(value, "\r\n" + fs, rest);
    Assoc("\r\n", fs, rest);
  }

  lemma {:induction false} FindLines(req: Request, t: string) returns (lines: seq<Line>, rest: string)
    requires IsGood(AtLine(req), t) && !IsBlank(t[0])
    ensures forall k :: 0 <= k < |lines| ==> IsLine(lines[k])
    ensures t == PrintLines(lines) + ("\r\n" + rest)
    decreases |t|
  {
    hide IsTokenChar, IsControl, IsWhite;
    ClassesAgree();
    FindOne(AtLine(req), t);
    if t[0] == '\r' {
      FindTwo(AtLine(req), t);
      lines, rest := [], t[2..];
      assert t == "\r\n" + t[2..];
    } else {
      var l, behind := FindLine(req, t);
      var ls, after := FindLines(WithHeaders(req, [LineMeaning(l)]), behind);
      lines, rest := [l] + ls, after;
      Assoc(PrintLine(l), PrintLines(ls), "\r\n" + rest);
    }
  }

  lemma FindNumber(req: Request, t: string, state: State) returns (digits: string, rest: string, next: Machine)
    requires state.MajorStart? || state.MinorStart?
    requires IsGood(Machine(state, req), t)
    ensures IsNumber(digits) && t == digits + rest && rest != "" && IsGood(next, rest) && !Takes(next.state, rest[0])
    ensures next.state == (if state.MajorStart? then Major else Minor) && next.req.headers == req.headers
  {
    hide Run;
    FindOne(Machine(state, req), t);
    var first := Consume(Machine(state, req), t[0]).next;
    var ds, behind := FindSpan(first, t[1..]);
    digits, rest, next := [t[0]] + ds, behind, Collected(first, ds);
    assert t == [t[0]] + t[1..];
  }

  lemma FindProtocol(req: Request, t: string) returns (rest: string)
    requires IsGood(Machine(Uri, req), t) && !Takes(Uri, t[0])
    ensures t == " HTTP/" + rest && IsGood(Machine(MajorStart, req.(major := 0, minor := 0)), rest)
  {
    hide Run;
    FindOne(Machine(Uri, req), t);
    FindTwo(Machine(Uri, req), t);
    var t2 := t[2..];
    FindOne(Machine(VersionT1, req), t2);
    FindTwo(Machine(VersionT1, req), t2);
    var t4 := t2[2..];
    FindOne(Machine(VersionP, req), t4);
    FindTwo(Machine(VersionP, req), t4);
    rest := t4[2..];
    assert t == " H" + t2 && t2 == "TT" + t4 && t4 == "P/" + rest;
    assert " HTTP/" == " H" + ("TT" + "P/");
  }

  lemma FindVersion(req: Request, t: string) returns (major: string, minor: string, rest: string, next: Request)
    requires IsGood(Machine(Uri, req), t) && !Takes(Uri, t[0])
    ensures IsNumber(major) && IsNumber(minor) && t == PrintVersion(major, minor) + rest
    ensures next.headers == req.headers && IsGood(AtLine(next), rest)
  {
    hide Run;
    var t1 := FindProtocol(req, t);
    var t2, t3, m, n;
    major, t2, m := FindNumber(req.(major := 0, minor := 0), t1, MajorStart);
    FindOne(m, t2);
    minor, t3, n := FindNumber(m.req, t2[1..], MinorStart);
    FindOne(n, t3);
    FindLineEnd(n, t3);
    rest, next := t3[2..], n.req;
    assert t2 == "." + t2[1..];
    VersionSpelling(major, minor, rest);
  }

  lemma VersionSpelling(major: string, minor: string, rest: string)
    ensures " HTTP/" + (major + ("." + (minor + ("\r\n" + rest)))) == PrintVersion(major, minor) + rest
  {
    Assoc(" HTTP/", major + ("." + (minor + "\r\n")), rest);
    Assoc(major, "." + (minor + "\r\n"), rest);
    Assoc(".", minor + "\r\n", rest);
    Assoc(minor, "\r\n", rest);
  }

  lemma FindSentence(m: Machine, t: string) returns (s: Sentence, rest: string)
    requires IsStart(m) && IsGood(m, t)
    ensures IsSentence(s) && t == Print(s) + rest
  {
    hide Run, IsTokenChar, IsControl, IsWhite;
    ClassesAgree();
    FindOne(m, t);
    var first := Machine(Method, m.req.(verb := [t[0]]));
    assert "" + [t[0]] == [t[0]];
    var vs, behindVerb := FindSpan(first, t[1..]);
    var named := Collected(first, vs);
    FindOne(named, behindVerb);
    var uri, behindUri := FindSpan(Machine(Uri, named.req), behindVerb[1..]);
    var target := Collected(Machine(Uri, named.req), uri);
    var major, minor, behindVersion, next := FindVersion(target.req, behindUri);
    FindOne(AtLine(next), behindVersion);
    var lines, after := FindLines(next, behindVersion);
    s, rest := Sentence([t[0]] + vs, uri, major, minor, lines), after;
    assert t == [t[0]] + t[1..];
    assert behindVerb == " " + behindVerb[1..];
    SentenceSpelling(t, vs, s, rest);
  }

  lemma SentenceSpelling(t: string, vs: string, s: Sentence, rest: string)
    requires t != "" && s.verb == [t[0]] + vs
    requires t == [t[0]] + (vs + (" " + (s.uri
                    + (PrintVersion(s.major, s.minor) + (PrintLines(s.lines) + ("\r\n" + rest))))))
    ensures t == Print(s) + rest
  {
    var v, ls := PrintVersion(s.major, s.minor), PrintLines(s.lines);
    Assoc(s.verb, " " + (s.uri + (v + (ls + "\r\n"))), rest);
    Assoc(" ", s.uri + (v + (ls + "\r\n")), rest);
    Assoc(s.uri, v + (ls + "\r\n"), rest);
    Assoc(v, ls + "\r\n", rest);
    Assoc(ls, "\r\n", rest);
    Assoc([t[0]], vs, " " + (s.uri + (v + (ls + ("\r\n" + rest)))));
  }

  ghost predicate BeginsWith(text: string, s: Sentence) {
    IsSentence(s) && Print(s) <= text
  }

  /**
   A parse is good exactly when the text begins with a sentence; then what was taken is that
   sentence, to the character, and the request is what it means.
   */
  lemma GoodIffSentence(m: Machine, text: string)
    requires IsStart(m)
    ensures Run(text, 0, m).result == Good <==> exists s :: BeginsWith(text, s)
    ensures forall s :: BeginsWith(text, s) ==>
              Run(text, 0, m) == Outcome(Good, |Print(s)|, Machine(Newline3, Meaning(s)))
  {
    if Run(text, 0, m).result == Good {
      var s, rest := FindSentence(m, text);
      assert BeginsWith(text, s);
    }
    forall s | BeginsWith(text, s)
      ensures Run(text, 0, m) == Outcome(Good, |Print(s)|, Machine(Newline3, Meaning(s)))
    {
      SentencesAreGood(m, s, text[|Print(s)|..]);
      assert text == Print(s) + text[|Print(s)|..];
    }
  }

  /** However the text arrives in reads, a connection takes it as a request exactly when it begins with a sentence. */
  lemma ReadsAreGoodIffSentence(m: Machine, chunks: seq<string>)
    requires IsStart(m)
    ensures Feed(chunks, m).result == Good <==> exists s :: BeginsWith(Concat(chunks), s)
    ensures forall s :: BeginsWith(Concat(chunks), s) ==>
              Feed(chunks, m) == Outcome(Good, |Print(s)|, Machine(Newline3, Meaning(s)))
  {
    ChunkingIsInvisible(chunks, m);
    GoodIffSentence(m, Concat(chunks));
  }

  // ---------- what is refused could not have become a sentence ----------

  /** The steps from a state to the end of the shortest head. */
  function StepsLeft(s: State): nat {
    match s
    case MethodStart => 15
    case Method => 14
    case Uri => 13
    case VersionH => 12
    case VersionT1 => 11
    case VersionT2 => 10
    case VersionP => 9
    case VersionSlash => 8
    case MajorStart => 7
    case Major => 6
    case MinorStart => 5
    case Minor => 4
    case HeaderName => 6
    case SpaceBeforeValue => 5
    case HeaderValue => 4
    case HeaderLws => 4
    case Newline1 => 3
    case Newline2 => 3
    case HeaderLineStart => 2
    case Newline3 => 1
  }

  /** A character that brings a state one step nearer to the end. */
  function Forward(s: State): char {
    match s
    case MethodStart => 'A'
    case Method => ' '
    case Uri => ' '
    case VersionH => 'H'
    case VersionT1 => 'T'
    case VersionT2 => 'T'
    case VersionP => 'P'
    case VersionSlash => '/'
    case MajorStart => '0'
    case Major => '.'
    case MinorStart => '0'
    case Minor => '\r'
    case HeaderName => ':'
    case SpaceBeforeValue => ' '
    case HeaderValue => '\r'
    case HeaderLws => '\r'
    case Newline1 => '\n'
    case Newline2 => '\n'
    case HeaderLineStart => '\r'
    case Newline3 => '\n'
  }

  /** Wherever the parser stands without a result, some continuation completes a head. */
  lemma {:induction false} AlwaysCompletable(m: Machine) returns (rest: string)
    requires Sane(m)
    ensures IsGood(m, rest)
    decreases StepsLeft(m.state)
  {
    var c := Forward(m.state);
    if m.state.Newline3? {
      rest := [c];
    } else {
      var next := Consume(m, c).next;
      assert Consume(m, c).result == Indeterminate && StepsLeft(next.state) < StepsLeft(m.state);
      rest := AlwaysCompletable(next);
      EatsOne(m, c);
      GoodBehind(m, [c], next, rest);
      rest := [c] + rest;
    }
  }

  /** A parse is bad as soon as, and only when, no continuation of the text begins with a sentence. */
  lemma BadIffHopeless(m: Machine, text: string)
    requires IsStart(m)
    ensures Run(text, 0, m).result == Bad <==> !exists rest, s :: BeginsWith(text + rest, s)
  {
    var r := Run(text, 0, m);
    if r.result == Bad {
      forall rest, s ensures !BeginsWith(text + rest, s) {
        RunPrefix(text, rest, 0, m);
        GoodIffSentence(m, text + rest);
      }
    } else {
      var rest := "";
      if r.result == Indeterminate {
        rest := AlwaysCompletable(r.machine);
        GoodBehind(m, text, r.machine, rest);
      } else {
        assert text + "" == text;
      }
      GoodIffSentence(m, text + rest);
      var s :| BeginsWith(text + rest, s);
    }
  }
}
