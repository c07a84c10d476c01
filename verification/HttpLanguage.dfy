/**
 The language of the request parser: an independent grammar of request heads (sections 4.2
 and 5.1 of RFC 1945 as the parser takes them), and the proof that every text beginning with
 a sentence of that grammar is good and is filled in as the sentence means.
 */
module HttpLanguage {
  import opened Texts
  import opened HttpParser

  // ---------- the character classes of section 2.2 of RFC 1945 ----------

  const TSPECIALS := "()<>@,;:\\\"/[]?={} \t"

  predicate IsControl(c: char) {
    0 <= c as int < 32 || c as int == 127
  }

  /** A character of a token: of ASCII, no control character and no tspecial. */
  predicate IsTokenChar(c: char) {
    c as int < 128 && !IsControl(c) && c !in TSPECIALS
  }

  /** SP and HT. */
  predicate IsWhite(c: char) {
    c in " \t"
  }

  /** The parser's classes are these. */
  lemma ClassesAgree()
    ensures |TSPECIALS| == 19
    ensures forall c :: IsCtl(c) <==> IsControl(c)
    ensures forall c :: IsToken(c) <==> IsTokenChar(c)
    ensures forall c :: IsBlank(c) <==> IsWhite(c)
  {
    forall c ensures IsTspecial(c) <==> c in TSPECIALS { TspecialIff(c); }
  }

  lemma TspecialIff(c: char)
    ensures IsTspecial(c) <==> c in TSPECIALS
  {
  }

  // ---------- the grammar ----------

  /** A continuation line: blanks, then the text that goes on with the value. */
  datatype Fold = Fold(blanks: string, rest: string)

  datatype Line = Line(name: string, value: string, folds: seq<Fold>)

  /** A request head; the version numbers are kept as they are spelled. */
  datatype Sentence = Sentence(verb: string, uri: string, major: string, minor: string, lines: seq<Line>)

  ghost predicate IsTokenText(s: string) {
    s != "" && forall k :: 0 <= k < |s| ==> IsTokenChar(s[k])
  }

  ghost predicate IsUriText(s: string) {
    forall k :: 0 <= k < |s| ==> !IsControl(s[k]) && s[k] != ' '
  }

  ghost predicate IsValueText(s: string) {
    forall k :: 0 <= k < |s| ==> !IsControl(s[k])
  }

  ghost predicate IsNumber(s: string) {
    s != "" && AllDigits(s)
  }

  ghost predicate IsFold(f: Fold) {
    && f.blanks != "" && (forall k :: 0 <= k < |f.blanks| ==> IsWhite(f.blanks[k]))
    && IsValueText(f.rest) && (f.rest != "" ==> f.rest[0] != ' ')
  }

  ghost predicate IsLine(l: Line) {
    IsTokenText(l.name) && IsValueText(l.value) && forall k :: 0 <= k < |l.folds| ==> IsFold(l.folds[k])
  }

  ghost predicate IsSentence(s: Sentence) {
    && IsTokenText(s.verb) && IsUriText(s.uri) && IsNumber(s.major) && IsNumber(s.minor)
    && forall k :: 0 <= k < |s.lines| ==> IsLine(s.lines[k])
  }

  function PrintFolds(folds: seq<Fold>): string {
    if folds == [] then "" else folds[0].blanks + (folds[0].rest + ("\r\n" + PrintFolds(folds[1..])))
  }

  function PrintLine(l: Line): string {
    l.name + (": " + (l.value + ("\r\n" + PrintFolds(l.folds))))
  }

  function PrintLines(lines: seq<Line>): string {
    if lines == [] then "" else PrintLine(lines[0]) + PrintLines(lines[1..])
  }

  function PrintVersion(major: string, minor: string): string {
    " HTTP/" + (major + ("." + (minor + "\r\n")))
  }

  function Print(s: Sentence): string {
    s.verb + (" " + (s.uri + (PrintVersion(s.major, s.minor) + (PrintLines(s.lines) + "\r\n"))))
  }

  /** The continuation texts one behind the other: their blanks are dropped and nothing joins them. */
  function Rests(folds: seq<Fold>): string {
    if folds == [] then "" else folds[0].rest + Rests(folds[1..])
  }

  function LineMeaning(l: Line): Header {
    Header(l.name, l.value + Rests(l.folds))
  }

  function LinesMeaning(lines: seq<Line>): (r: seq<Header>)
    ensures |r| == |lines|
  {
    if lines == [] then [] else [LineMeaning(lines[0])] + LinesMeaning(lines[1..])
  }

  ghost function Meaning(s: Sentence): Request
    requires IsSentence(s)
  {
    Request(s.verb, s.uri, Natural(s.major), Natural(s.minor), LinesMeaning(s.lines))
  }

  /** A parser that has read nothing; the version fields of its request are not initialised. */
  predicate IsStart(m: Machine) {
    m.state.MethodStart? && m.req.verb == "" && m.req.uri == "" && m.req.headers == []
  }

  // ---------- taking a text without coming to a result ----------

  ghost predicate Eats(m: Machine, s: string, next: Machine) {
    Sane(m) && Run(s, 0, m) == Outcome(Indeterminate, |s|, next)
  }

  lemma EatsThen(m: Machine, a: string, mid: Machine, b: string, next: Machine)
    requires Eats(m, a, mid) && Eats(mid, b, next)
    ensures Eats(m, a + b, next)
  {
    RunPrefix(a, b, 0, m);
    RunShift(a, b, 0, mid);
  }

  lemma EatsNothing(m: Machine)
    requires Sane(m)
    ensures Eats(m, "", m)
  {
  }

  lemma EatsOne(m: Machine, c: char)
    requires Sane(m) && Consume(m, c).result == Indeterminate
    ensures Eats(m, [c], Consume(m, c).next)
  {
    assert Run([c], 1, Consume(m, c).next) == Outcome(Indeterminate, 1, Consume(m, c).next);
  }

  lemma EatsTwo(m: Machine, c: char, d: char)
    requires Sane(m) && Consume(m, c).result == Indeterminate && Consume(Consume(m, c).next, d).result == Indeterminate
    ensures Eats(m, [c, d], Consume(Consume(m, c).next, d).next)
  {
    EatsOne(m, c);
    EatsOne(Consume(m, c).next, d);
    EatsThen(m, [c], Consume(m, c).next, [d], Consume(Consume(m, c).next, d).next);
    assert [c] + [d] == [c, d];
  }

  // ---------- collecting states ----------

  /** The characters a state keeps collecting. */
  predicate Takes(s: State, c: char) {
    match s
    case Method => IsToken(c)
    case Uri => !IsCtl(c) && c != ' '
    case Major => IsDigit(c)
    case Minor => IsDigit(c)
    case HeaderName => IsToken(c)
    case HeaderValue => !IsCtl(c)
    case HeaderLws => IsBlank(c)
    case _ => false
  }

  ghost predicate TakesAll(s: State, t: string) {
    forall k :: 0 <= k < |t| ==> Takes(s, t[k])
  }

  /** `n` with further digits behind it. */
  function Longer(n: int, digits: string): int {
    if digits == "" then n
    else
      var last := |digits| - 1;
      Longer(n, digits[..last]) * 10 + (if IsDigit(digits[last]) then Digit(digits[last]) else 0)
  }

  lemma {:induction false} LongerIsNatural(first: string, digits: string)
    requires AllDigits(first) && AllDigits(digits)
    ensures AllDigits(first + digits)
    ensures Longer(Natural(first), digits) == Natural(first + digits)
    decreases |digits|
  {
    if digits == "" {
      assert first + digits == first;
    } else {
      var last := |digits| - 1;
      var d := digits[last];
      LongerIsNatural(first, digits[..last]);
      assert first + digits == first + digits[..last] + [d];
      NaturalSnoc(first + digits[..last], d);
    }
  }

  /** The request with a text added to the part the state collects. */
  function Collected(m: Machine, t: string): (r: Machine)
    requires Sane(m)
    ensures Sane(r) && r.state == m.state
  {
    var req := m.req;
    match m.state
    case Method => m.(req := req.(verb := req.verb + t))
    case Uri => m.(req := req.(uri := req.uri + t))
    case Major => m.(req := req.(major := Longer(req.major, t)))
    case Minor => m.(req := req.(minor := Longer(req.minor, t)))
    case HeaderName => m.(req := SetLast(req, LastHeader(req).(name := LastHeader(req).name + t)))
    case HeaderValue => m.(req := SetLast(req, LastHeader(req).(value := LastHeader(req).value + t)))
    case _ => m
  }

  lemma CollectedNone(m: Machine)
    requires Sane(m)
    ensures Collected(m, "") == m
  {
    assert m.req.verb + "" == m.req.verb && m.req.uri + "" == m.req.uri;
    if UsesLastHeader(m.state) {
      var hs := m.req.headers;
      var h := LastHeader(m.req);
      assert h.name + "" == h.name && h.value + "" == h.value;
      assert hs[..|hs| - 1] + [h] == hs;
    }
  }

  lemma CollectedSnoc(m: Machine, t: string, c: char)
    requires Sane(m) && Takes(m.state, c)
    ensures Consume(Collected(m, t), c) == Go(m.state, Collected(m, t + [c]).req)
  {
    Assoc(m.req.verb, t, [c]);
    Assoc(m.req.uri, t, [c]);
    assert (t + [c])[..|t|] == t;
    if UsesLastHeader(m.state) {
      var hs := m.req.headers;
      Assoc(LastHeader(m.req).name, t, [c]);
      Assoc(LastHeader(m.req).value, t, [c]);
      var ks := Collected(m, t).req.headers;
      assert m.state.HeaderName? || m.state.HeaderValue? ==> ks[..|ks| - 1] == hs[..|hs| - 1];
    }
  }

  lemma {:induction false} EatsSpan(m: Machine, t: string)
    requires Sane(m) && TakesAll(m.state, t)
    ensures Eats(m, t, Collected(m, t))
    decreases |t|
  {
    if t == "" {
      CollectedNone(m);
    } else {
      var last := |t| - 1;
      EatsSpan(m, t[..last]);
      CollectedSnoc(m, t[..last], t[last]);
      assert t[..last] + [t[last]] == t;
      EatsOne(Collected(m, t[..last]), t[last]);
      EatsThen(m, t[..last], Collected(m, t[..last]), [t[last]], Collected(m, t));
    }
  }

  // ---------- sentences are taken ----------

  function AtLine(req: Request): Machine {
    Machine(HeaderLineStart, req)
  }

  function WithHeaders(req: Request, hs: seq<Header>): Request {
    req.(headers := req.headers + hs)
  }

  /** The last header with more text behind its value. */
  function Grown(req: Request, t: string): Request
    requires req.headers != []
  {
    SetLast(req, LastHeader(req).(value := LastHeader(req).value + t))
  }

  lemma GrownTwice(req: Request, a: string, b: string)
    requires req.headers != []
    ensures Grown(Grown(req, a), b) == Grown(req, a + b)
  {
    Assoc(LastHeader(req).value, a, b);
    var hs, gs := req.headers, Grown(req, a).headers;
    assert gs[..|gs| - 1] == hs[..|hs| - 1];
  }

  lemma EatsRest(req: Request, t: string, state: State)
    requires req.headers != [] && IsValueText(t)
    requires state.HeaderValue? || (state.HeaderLws? && (t != "" ==> t[0] != ' '))
    ensures Eats(Machine(state, req), t + "\r\n", AtLine(Grown(req, t)))
    decreases |t|
  {
    hide Run, IsTokenChar, IsControl, IsWhite;
    ClassesAgree();
    var m := Machine(state, req);
    if state.HeaderValue? {
      EatsSpan(m, t);
      var mid := Collected(m, t);
      EatsTwo(mid, '\r', '\n');
      EatsThen(m, t, mid, "\r\n", AtLine(Grown(req, t)));
    } else if t == "" {
      CollectedNone(Machine(HeaderValue, req));
      EatsTwo(m, '\r', '\n');
      assert t + "\r\n" == "\r\n";
    } else {
      EatsOne(m, t[0]);
      var next := Machine(HeaderValue, Grown(req, [t[0]]));
      EatsRest(next.req, t[1..], HeaderValue);
      EatsThen(m, [t[0]], next, t[1..] + "\r\n", AtLine(Grown(next.req, t[1..])));
      GrownTwice(req, [t[0]], t[1..]);
      assert [t[0]] + t[1..] == t;
      Assoc([t[0]], t[1..], "\r\n");
    }
  }

  lemma EatsFold(req: Request, f: Fold)
    requires req.headers != [] && IsFold(f)
    ensures Eats(AtLine(req), f.blanks + (f.rest + "\r\n"), AtLine(Grown(req, f.rest)))
  {
    hide Run, IsTokenChar, IsControl, IsWhite;
    ClassesAgree();
    var m := Machine(HeaderLws, req);
    var b := f.blanks;
    EatsOne(AtLine(req), b[0]);
    EatsSpan(m, b[1..]);
    EatsThen(AtLine(req), [b[0]], m, b[1..], m);
    assert [b[0]] + b[1..] == b;
    EatsRest(req, f.rest, HeaderLws);
    EatsThen(AtLine(req), b, m, f.rest + "\r\n", AtLine(Grown(req, f.rest)));
  }

  lemma {:induction false} EatsFolds(req: Request, folds: seq<Fold>)
    requires req.headers != [] && forall k :: 0 <= k < |folds| ==> IsFold(folds[k])
    ensures Eats(AtLine(req), PrintFolds(folds), AtLine(Grown(req, Rests(folds))))
    decreases |folds|
  {
    hide Run;
    if folds == [] {
      CollectedNone(Machine(HeaderValue, req));
      EatsNothing(AtLine(req));
    } else {
      var f, next := folds[0], Grown(req, folds[0].rest);
      EatsFold(req, f);
      EatsFolds(next, folds[1..]);
      EatsThen(AtLine(req), f.blanks + (f.rest + "\r\n"), AtLine(next),
               PrintFolds(folds[1..]), AtLine(Grown(next, Rests(folds[1..]))));
      GrownTwice(req, f.rest, Rests(folds[1..]));
      Assoc(f.blanks, f.rest + "\r\n", PrintFolds(folds[1..]));
      Assoc(f.rest, "\r\n", PrintFolds(folds[1..]));
    }
  }

  lemma EatsName(req: Request, name: string)
    requires IsTokenText(name)
    ensures Eats(AtLine(req), name + ": ", Machine(HeaderValue, WithHeaders(req, [Header(name, "")])))
  {
    hide Run, IsTokenChar, IsControl, IsWhite;
    ClassesAgree();
    var first := Machine(HeaderName, WithHeaders(req, [Header([name[0]], "")]));
    var last := Machine(HeaderName, WithHeaders(req, [Header(name, "")]));
    EatsOne(AtLine(req), name[0]);
    EatsSpan(first, name[1..]);
    assert [name[0]] + name[1..] == name;
    assert Collected(first, name[1..]) == last;
    EatsThen(AtLine(req), [name[0]], first, name[1..], last);
    EatsTwo(last, ':', ' ');
    EatsThen(AtLine(req), name, last, ": ", Machine(HeaderValue, last.req));
  }

  lemma EatsLine(req: Request, l: Line)
    requires IsLine(l)
    ensures Eats(AtLine(req), PrintLine(l), AtLine(WithHeaders(req, [LineMeaning(l)])))
  {
    hide Run, IsTokenChar, IsControl, IsWhite;
    ClassesAgree();
    var named := WithHeaders(req, [Header(l.name, "")]);
    var valued := Grown(named, l.value);
    EatsName(req, l.name);
    EatsRest(named, l.value, HeaderValue);
    EatsThen(AtLine(req), l.name + ": ", Machine(HeaderValue, named), l.value + "\r\n", AtLine(valued));
    EatsFolds(valued, l.folds);
    EatsThen(AtLine(req), (l.name + ": ") + (l.value + "\r\n"), AtLine(valued),
             PrintFolds(l.folds), AtLine(Grown(valued, Rests(l.folds))));
    GrownTwice(named, l.value, Rests(l.folds));
    assert Grown(named, l.value + Rests(l.folds)) == WithHeaders(req, [LineMeaning(l)]) by {
      assert "" + (l.value + Rests(l.folds)) == l.value + Rests(l.folds);
    }
    LineSpelling(l);
  }

  lemma LineSpelling(l: Line)
    ensures (l.name + ": ") + (l.value + "\r\n") + PrintFolds(l.folds) == PrintLine(l)
  {
    Assoc(l.name + ": ", l.value + "\r\n", PrintFolds(l.folds));
    Assoc(l.value, "\r\n", PrintFolds(l.folds));
    Assoc(l.name, ": ", l.value + ("\r\n" + PrintFolds(l.folds)));
  }

  lemma {:induction false} EatsLines(req: Request, lines: seq<Line>)
    requires forall k :: 0 <= k < |lines| ==> IsLine(lines[k])
    ensures Eats(AtLine(req), PrintLines(lines), AtLine(WithHeaders(req, LinesMeaning(lines))))
    decreases |lines|
  {
    hide Run;
    if lines == [] {
      assert WithHeaders(req, []) == req;
      EatsNothing(AtLine(req));
    } else {
      var next := WithHeaders(req, [LineMeaning(lines[0])]);
      EatsLine(req, lines[0]);
      EatsLines(next, lines[1..]);
      EatsThen(AtLine(req), PrintLine(lines[0]), AtLine(next),
               PrintLines(lines[1..]), AtLine(WithHeaders(next, LinesMeaning(lines[1..]))));
      assert req.headers + [LineMeaning(lines[0])] + LinesMeaning(lines[1..]) == req.headers + LinesMeaning(lines);
    }
  }

  lemma EatsProtocol(req: Request)
    ensures Eats(Machine(Uri, req), " HTTP/", Machine(MajorStart, req.(major := 0, minor := 0)))
  {
    hide Run;
    EatsTwo(Machine(Uri, req), ' ', 'H');
    EatsTwo(Machine(VersionT1, req), 'T', 'T');
    EatsTwo(Machine(VersionP, req), 'P', '/');
    EatsThen(Machine(Uri, req), " H", Machine(VersionT1, req), "TT", Machine(VersionP, req));
    EatsThen(Machine(Uri, req), " H" + "TT", Machine(VersionP, req), "P/",
             Machine(MajorStart, req.(major := 0, minor := 0)));
    assert " H" + "TT" + "P/" == " HTTP/";
  }

  lemma EatsMajor(req: Request, digits: string)
    requires IsNumber(digits) && req.major == 0
    ensures Eats(Machine(MajorStart, req), digits + ".", Machine(MinorStart, req.(major := Natural(digits))))
  {
    hide Run;
    var d, ds := digits[0], digits[1..];
    assert [d] + ds == digits;
    NaturalSnoc("", d);
    assert "" + [d] == [d];
    LongerIsNatural([d], ds);
    var first := Machine(Major, req.(major := Digit(d)));
    var last := Machine(Major, req.(major := Natural(digits)));
    EatsOne(Machine(MajorStart, req), d);
    EatsSpan(first, ds);
    EatsThen(Machine(MajorStart, req), [d], first, ds, last);
    EatsOne(last, '.');
    EatsThen(Machine(MajorStart, req), digits, last, ".", Machine(MinorStart, last.req));
  }

  lemma EatsMinor(req: Request, digits: string)
    requires IsNumber(digits) && req.minor == 0
    ensures Eats(Machine(MinorStart, req), digits + "\r\n", AtLine(req.(minor := Natural(digits))))
  {
    hide Run;
    var d, ds := digits[0], digits[1..];
    assert [d] + ds == digits;
    NaturalSnoc("", d);
    assert "" + [d] == [d];
    LongerIsNatural([d], ds);
    var first := Machine(Minor, req.(minor := Digit(d)));
    var last := Machine(Minor, req.(minor := Natural(digits)));
    EatsOne(Machine(MinorStart, req), d);
    EatsSpan(first, ds);
    EatsThen(Machine(MinorStart, req), [d], first, ds, last);
    EatsTwo(last, '\r', '\n');
    EatsThen(Machine(MinorStart, req), digits, last, "\r\n", AtLine(last.req));
  }

  lemma EatsVersion(req: Request, major: string, minor: string)
    requires IsNumber(major) && IsNumber(minor)
    ensures Eats(Machine(Uri, req), PrintVersion(major, minor),
                 AtLine(req.(major := Natural(major), minor := Natural(minor))))
  {
    hide Run;
    var zero := req.(major := 0, minor := 0);
    var half := zero.(major := Natural(major));
    var full := half.(minor := Natural(minor));
    EatsProtocol(req);
    EatsMajor(zero, major);
    EatsMinor(half, minor);
    EatsThen(Machine(MajorStart, zero), major + ".", Machine(MinorStart, half), minor + "\r\n", AtLine(full));
    EatsThen(Machine(Uri, req), " HTTP/", Machine(MajorStart, zero), (major + ".") + (minor + "\r\n"), AtLine(full));
    Assoc(major, ".", minor + "\r\n");
  }

  lemma EatsTarget(m: Machine, verb: string, uri: string)
    requires IsStart(m) && IsTokenText(verb) && IsUriText(uri)
    ensures Eats(m, verb + (" " + uri), Machine(Uri, m.req.(verb := verb, uri := uri)))
  {
    hide Run, IsTokenChar, IsControl, IsWhite;
    ClassesAgree();
    var first := Machine(Method, m.req.(verb := [verb[0]]));
    var named := Machine(Method, m.req.(verb := verb));
    var target := Machine(Uri, named.req);
    EatsOne(m, verb[0]);
    assert "" + [verb[0]] == [verb[0]];
    EatsSpan(first, verb[1..]);
    assert [verb[0]] + verb[1..] == verb;
    EatsThen(m, [verb[0]], first, verb[1..], named);
    EatsOne(named, ' ');
    EatsSpan(target, uri);
    assert "" + uri == uri;
    EatsThen(named, " ", target, uri, Collected(target, uri));
    EatsThen(m, verb, named, " " + uri, Collected(target, uri));
  }

  /** Every sentence but its last line end is taken without a result, and leaves its meaning behind. */
  lemma EatsHead(m: Machine, s: Sentence)
    requires IsStart(m) && IsSentence(s)
    ensures Eats(m, s.verb + (" " + s.uri) + PrintVersion(s.major, s.minor) + PrintLines(s.lines), AtLine(Meaning(s)))
  {
    hide Run;
    var target := m.req.(verb := s.verb, uri := s.uri);
    var versioned := target.(major := Natural(s.major), minor := Natural(s.minor));
    EatsTarget(m, s.verb, s.uri);
    EatsVersion(target, s.major, s.minor);
    EatsThen(m, s.verb + (" " + s.uri), Machine(Uri, target), PrintVersion(s.major, s.minor), AtLine(versioned));
    EatsLines(versioned, s.lines);
    assert [] + LinesMeaning(s.lines) == LinesMeaning(s.lines);
    EatsThen(m, s.verb + (" " + s.uri) + PrintVersion(s.major, s.minor), AtLine(versioned),
             PrintLines(s.lines), AtLine(Meaning(s)));
  }

  lemma HeadSpelling(s: Sentence)
    ensures s.verb + (" " + s.uri) + PrintVersion(s.major, s.minor) + PrintLines(s.lines) + "\r\n" == Print(s)
  {
    var v, ls := PrintVersion(s.major, s.minor), PrintLines(s.lines);
    Assoc(s.verb + (" " + s.uri) + v, ls, "\r\n");
    Assoc(s.verb + (" " + s.uri), v, ls + "\r\n");
    Assoc(s.verb, " " + s.uri, v + (ls + "\r\n"));
    Assoc(" ", s.uri, v + (ls + "\r\n"));
  }

  /** The blank line that ends a head. */
  lemma BlankLineIsGood(req: Request)
    ensures Run("\r\n", 0, AtLine(req)) == Outcome(Good, 2, Machine(Newline3, req))
  {
    var s := "\r\n";
    assert Consume(AtLine(req), s[0]) == Go(Newline3, req);
    assert Run(s, 1, Machine(Newline3, req)) == Outcome(Good, 2, Machine(Newline3, req));
  }

  /** A text that begins with a sentence is parsed just as far as the sentence goes, into what the sentence means. */
  lemma SentencesAreGood(m: Machine, s: Sentence, rest: string)
    requires IsStart(m) && IsSentence(s)
    ensures Run(Print(s) + rest, 0, m) == Outcome(Good, |Print(s)|, Machine(Newline3, Meaning(s)))
  {
    var head := s.verb + (" " + s.uri) + PrintVersion(s.major, s.minor) + PrintLines(s.lines);
    EatsHead(m, s);
    HeadSpelling(s);
    BlankLineIsGood(Meaning(s));
    RunPrefix(head, "\r\n", 0, m);
    RunShift(head, "\r\n", 0, AtLine(Meaning(s)));
    RunPrefix(Print(s), rest, 0, m);
  }

  // ---------- printing a request ----------

  ghost predicate IsRequest(req: Request) {
    && IsTokenText(req.verb) && IsUriText(req.uri) && req.major >= 0 && req.minor >= 0
    && AreHeaders(req.headers)
  }

  ghost predicate AreHeaders(hs: seq<Header>) {
    forall k :: 0 <= k < |hs| ==> IsTokenText(hs[k].name) && IsValueText(hs[k].value)
  }

  /** Headers each on a line of its own. */
  function PlainLines(hs: seq<Header>): (r: seq<Line>)
    ensures |r| == |hs| && forall k :: 0 <= k < |hs| ==> r[k] == Line(hs[k].name, hs[k].value, [])
  {
    if hs == [] then [] else [Line(hs[0].name, hs[0].value, [])] + PlainLines(hs[1..])
  }

  lemma {:induction false} PlainMeaning(hs: seq<Header>)
    ensures LinesMeaning(PlainLines(hs)) == hs
    decreases |hs|
  {
    if hs != [] {
      PlainMeaning(hs[1..]);
      assert hs[0].value + "" == hs[0].value;
    }
  }

  function RequestSentence(req: Request): Sentence
    requires req.major >= 0 && req.minor >= 0
  {
    Sentence(req.verb, req.uri, Decimal(req.major), Decimal(req.minor), PlainLines(req.headers))
  }

  /**
   A printed request is still incomplete on every proper prefix, is good on its last character, and
   comes back unchanged.
   */
  lemma RequestRoundTrip(m: Machine, req: Request)
    requires IsStart(m) && IsRequest(req)
    ensures var text := Print(RequestSentence(req));
      && Run(text, 0, m) == Outcome(Good, |text|, Machine(Newline3, req))
      && forall n :: 0 <= n < |text| ==> Run(text[..n], 0, m).result == Indeterminate
  {
    var s := RequestSentence(req);
    var text := Print(s);
    PlainMeaning(req.headers);
    DecimalIsNatural(req.major);
    DecimalIsNatural(req.minor);
    SentencesAreGood(m, s, "");
    assert text + "" == text;
    forall n | 0 <= n < |text| ensures Run(text[..n], 0, m).result == Indeterminate {
      PrefixOutcome(text, n, m);
    }
  }
}
