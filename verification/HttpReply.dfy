/**
 The reply of server/reply.cpp: its status lines, its stock contents and its serialisation,
 read back by the request parser of the same server.
 */
module HttpReply {
  import opened Options
  import opened Sequences
  import opened Texts
  import opened HttpParser
  import opened HttpLanguage

  /** A reply; its status is a number, as any number may stand in the source's enumeration field. */
  datatype Reply = Reply(status: int, headers: seq<Header>, content: string)

  // ---------- the tables ----------

  function StatusText(code: string, reason: string): string {
    "HTTP/1.0 " + code + " " + reason + "\r\n"
  }

  /** The number and the reason phrase in the status line of a status the source lists. */
  function Listed(status: int): Option<(string, string)> {
    match status
    case 200 => Some(("200", "OK"))
    case 201 => Some(("201", "Created"))
    case 202 => Some(("202", "Accepted"))
    case 204 => Some(("204", "No Content"))
    case 300 => Some(("300", "Multiple Choices"))
    case 301 => Some(("301", "Moved Permanently"))
    case 302 => Some(("302", "Moved Temporarily"))
    case 304 => Some(("304", "Not Modified"))
    case 400 => Some(("400", "Bad Request"))
    case 401 => Some(("401", "Unauthorized"))
    case 403 => Some(("403", "Forbidden"))
    case 404 => Some(("404", "Not Found"))
    case 500 => Some(("500", "Internal Server Error"))
    case 501 => Some(("501", "Not Implemented"))
    case 502 => Some(("502", "Bad Gateway"))
    case 503 => Some(("503", "Service Unavailable"))
    case _ => None
  }

  function StatusLine(status: int): string {
    match Listed(status)
    case Some(line) => StatusText(line.0, line.1)
    case None => StatusText("500", "Internal Server Error")
  }

  function Page(title: string, heading: string): string {
    "<html><head><title>" + title + "</title></head><body><h1>" + heading + "</h1></body></html>"
  }

  function StockContent(status: int): string {
    match status
    case 200 => ""
    case 201 => Page("Created", "201 Created")
    case 202 => Page("Accepted", "202 Accepted")
    case 204 => Page("No Content", "204 Content")
    case 300 => Page("Multiple Choices", "300 Multiple Choices")
    case 301 => Page("Moved Permanently", "301 Moved Permanently")
    case 302 => Page("Moved Temporarily", "302 Moved Temporarily")
    case 304 => Page("Not Modified", "304 Not Modified")
    case 400 => Page("Bad Request", "400 Bad Request")
    case 401 => Page("Unauthorized", "401 Unauthorized")
    case 403 => Page("Forbidden", "403 Forbidden")
    case 404 => Page("Not Found", "404 Not Found")
    case 501 => Page("Not Implemented", "501 Not Implemented")
    case 502 => Page("Bad Gateway", "502 Bad Gateway")
    case 503 => Page("Service Unavailable", "503 Service Unavailable")
    case _ => Page("Internal Server Error", "500 Internal Server Error")
  }

  lemma ThreeDigits(n: nat)
    requires 100 <= n < 1000
    ensures Decimal(n) == ['0' + (n / 100) as char, '0' + (n / 10 % 10) as char, '0' + (n % 10) as char]
  {
    assert Decimal(n / 100) == ['0' + (n / 100) as char];
    assert Decimal(n / 10) == Decimal(n / 100) + ['0' + (n / 10 % 10) as char];
    assert Decimal(n) == Decimal(n / 10) + ['0' + (n % 10) as char];
  }

  /** The reason phrases of sections 6.1.1 and 9.3 of RFC 1945. */
  function RfcReason(status: int): Option<string> {
    if status == 200 then Some("OK") else if status == 201 then Some("Created")
    else if status == 202 then Some("Accepted") else if status == 204 then Some("No Content")
    else if status == 300 then Some("Multiple Choices") else if status == 301 then Some("Moved Permanently")
    else if status == 302 then Some("Moved Temporarily") else if status == 304 then Some("Not Modified")
    else if status == 400 then Some("Bad Request") else if status == 401 then Some("Unauthorized")
    else if status == 403 then Some("Forbidden") else if status == 404 then Some("Not Found")
    else if status == 500 then Some("Internal Server Error") else if status == 501 then Some("Not Implemented")
    else if status == 502 then Some("Bad Gateway") else if status == 503 then Some("Service Unavailable")
    else None
  }

  lemma ReasonIs(status: int)
    ensures RfcReason(status) == match Listed(status) case Some(line) => Some(line.1) case None => None
  {
  }

  lemma CodeIs(status: int)
    requires Listed(status).Some?
    ensures status >= 0 && Listed(status).value.0 == Decimal(status)
  {
    hide Decimal;
    ThreeDigits(status);
    assert |Listed(status).value.0| == 3;
  }

  /** Every status of RFC 1945 goes out under its own number and phrase, every other one as 500. */
  lemma StatusLineNamesStatus(status: int)
    ensures match RfcReason(status)
      case Some(reason) =>
        status >= 0 && StatusLine(status) == "HTTP/1.0 " + Decimal(status) + " " + reason + "\r\n"
      case None => StatusLine(status) == StatusLine(500)
  {
    hide Decimal, Listed, RfcReason;
    ReasonIs(status);
    if Listed(status).Some? { CodeIs(status); } else { FallsBack(); }
  }

  lemma FallsBack()
    ensures StatusLine(500) == StatusText("500", "Internal Server Error")
  {
  }

  /**
   The stock page of a listed status has the reason phrase of its status line as title, and
   number and phrase as heading, exactly if it is neither that of 200, which is empty, nor that
   of 204, whose heading leaves out a word. Every other status has the page of 500.
   */
  lemma StockPageMatchesLineIff(status: int)
    ensures match Listed(status)
      case Some(line) =>
        StockContent(status) == "<html><head><title>" + line.1 + "</title></head><body><h1>" + (line.0 + (" " + line.1))
                                + "</h1></body></html>"
        <==> status != 200 && status != 204
      case None => StockContent(status) == StockContent(500)
  {
    hide Page;
    PageIs();
    if Listed(status).Some? {
      if status == 200 {
        PageIsLong("OK", "200" + (" " + "OK"));
      } else if status == 204 {
        PagesDiffer("No Content", "204 Content", "204" + (" " + "No Content"));
      } else if status < 300 {
        SuccessHeadings(status);
      } else if status < 302 {
        ChoiceHeadings(status);
      } else if status < 400 {
        MovedHeadings(status);
      } else if status < 500 {
        RequestHeadings(status);
      } else if status < 502 {
        ServerHeadings(status);
      } else {
        GatewayHeadings(status);
      }
    }
  }

  lemma PageIs()
    ensures forall title, heading ::
      Page(title, heading)
      == "<html><head><title>" + title + "</title></head><body><h1>" + heading + "</h1></body></html>"
  {
  }

  lemma PageIsLong(title: string, heading: string)
    ensures Page(title, heading) != ""
  {
  }

  lemma PagesDiffer(title: string, a: string, b: string)
    requires |a| != |b|
    ensures Page(title, a) != Page(title, b)
  {
  }

  lemma SuccessHeadings(status: int)
    requires Listed(status).Some? && 200 < status < 300 && status != 204
    ensures var line := Listed(status).value;
      StockContent(status) == Page(line.1, line.0 + (" " + line.1))
  {
    hide Page;
    match status
    case 201 => assert "201" + (" " + "Created") == "201 Created";
    case 202 => assert "202" + (" " + "Accepted") == "202 Accepted";
    case _ =>
  }

  lemma ChoiceHeadings(status: int)
    requires Listed(status).Some? && 300 <= status < 302
    ensures var line := Listed(status).value;
      StockContent(status) == Page(line.1, line.0 + (" " + line.1))
  {
    hide Page;
    if status == 300 {
      assert "300" + (" " + "Multiple Choices") == "300 Multiple Choices";
    } else {
      assert "301" + (" " + "Moved Permanently") == "301 Moved Permanently";
    }
  }

  lemma MovedHeadings(status: int)
    requires Listed(status).Some? && 302 <= status < 400
    ensures var line := Listed(status).value;
      StockContent(status) == Page(line.1, line.0 + (" " + line.1))
  {
    hide Page;
    if status == 302 {
      assert "302" + (" " + "Moved Temporarily") == "302 Moved Temporarily";
    } else {
      assert "304" + (" " + "Not Modified") == "304 Not Modified";
    }
  }

  lemma RequestHeadings(status: int)
    requires Listed(status).Some? && 400 <= status < 500
    ensures var line := Listed(status).value;
      StockContent(status) == Page(line.1, line.0 + (" " + line.1))
  {
    hide Page;
    match status
    case 400 => assert "400" + (" " + "Bad Request") == "400 Bad Request";
    case 401 => assert "401" + (" " + "Unauthorized") == "401 Unauthorized";
    case 403 => assert "403" + (" " + "Forbidden") == "403 Forbidden";
    case 404 => assert "404" + (" " + "Not Found") == "404 Not Found";
    case _ =>
  }

  lemma ServerHeadings(status: int)
    requires Listed(status).Some? && 500 <= status < 502
    ensures var line := Listed(status).value;
      StockContent(status) == Page(line.1, line.0 + (" " + line.1))
  {
    hide Page;
    match status
    case 500 => assert "500" + (" " + "Internal Server Error") == "500 Internal Server Error";
    case 501 => assert "501" + (" " + "Not Implemented") == "501 Not Implemented";
    case _ =>
  }

  lemma GatewayHeadings(status: int)
    requires Listed(status).Some? && 502 <= status
    ensures var line := Listed(status).value;
      StockContent(status) == Page(line.1, line.0 + (" " + line.1))
  {
    hide Page;
    match status
    case 502 => assert "502" + (" " + "Bad Gateway") == "502 Bad Gateway";
    case 503 => assert "503" + (" " + "Service Unavailable") == "503 Service Unavailable";
    case _ =>
  }

  // ---------- serialisation ----------

  function HeaderBuffers(hs: seq<Header>): seq<string> {
    if hs == [] then []
    else HeaderBuffers(hs[..|hs| - 1]) + [hs[|hs| - 1].name, ": ", hs[|hs| - 1].value, "\r\n"]
  }

  lemma {:induction false} ConcatAppend(a: seq<string>, b: seq<string>)
    ensures Concat(a + b) == Concat(a) + Concat(b)
    decreases |a|
  {
    if a == [] {
      assert a + b == b;
    } else {
      ConcatAppend(a[1..], b);
      assert (a + b)[1..] == a[1..] + b;
      Assoc(a[0], Concat(a[1..]), Concat(b));
    }
  }

  lemma {:induction false} PrintLinesAppend(a: seq<Line>, b: seq<Line>)
    ensures PrintLines(a + b) == PrintLines(a) + PrintLines(b)
    decreases |a|
  {
    if a == [] {
      assert a + b == b;
    } else {
      PrintLinesAppend(a[1..], b);
      assert (a + b)[1..] == a[1..] + b;
      Assoc(PrintLine(a[0]), PrintLines(a[1..]), PrintLines(b));
    }
  }

  lemma OneHeader(h: Header)
    ensures Concat([h.name, ": ", h.value, "\r\n"]) == PrintLines(PlainLines([h]))
  {
    var bs := [h.name, ": ", h.value, "\r\n"];
    assert bs[1..] == [": ", h.value, "\r\n"] && bs[1..][1..] == [h.value, "\r\n"];
    assert Concat(["\r\n"]) == "\r\n" + "";
    assert Concat([h.value, "\r\n"]) == h.value + Concat(["\r\n"]) by { assert [h.value, "\r\n"][1..] == ["\r\n"]; }
    assert Concat(bs[1..]) == ": " + Concat([h.value, "\r\n"]);
    assert PlainLines([h]) == [Line(h.name, h.value, [])];
  }

  lemma HeaderBuffersSnoc(hs: seq<Header>, h: Header)
    requires Concat(HeaderBuffers(hs)) == PrintLines(PlainLines(hs))
    ensures Concat(HeaderBuffers(hs + [h])) == PrintLines(PlainLines(hs + [h]))
  {
    hide PrintLines, Concat;
    assert (hs + [h])[..|hs|] == hs;
    ConcatAppend(HeaderBuffers(hs), [h.name, ": ", h.value, "\r\n"]);
    OneHeader(h);
    PrintLinesAppend(PlainLines(hs), PlainLines([h]));
    assert PlainLines(hs) + PlainLines([h]) == PlainLines(hs + [h]);
  }

  lemma NoHeaders()
    ensures Concat(HeaderBuffers([])) == "" == PrintLines(PlainLines([]))
  {
  }

  lemma {:induction false} HeaderBuffersPrint(hs: seq<Header>)
    ensures Concat(HeaderBuffers(hs)) == PrintLines(PlainLines(hs))
    decreases |hs|
  {
    hide HeaderBuffers, Concat, PrintLines, PlainLines;
    if hs == [] {
      NoHeaders();
    } else {
      var n := |hs| - 1;
      HeaderBuffersPrint(hs[..n]);
      HeaderBuffersSnoc(hs[..n], hs[n]);
      SnocLast(hs);
    }
  }

  /** What goes out behind the status line. */
  function Tail(rep: Reply): string {
    PrintLines(PlainLines(rep.headers)) + ("\r\n" + rep.content)
  }

  lemma BuffersSpell(rep: Reply, buffers: seq<string>)
    requires buffers == [StatusLine(rep.status)] + HeaderBuffers(rep.headers) + ["\r\n", rep.content]
    ensures Concat(buffers) == StatusLine(rep.status) + Tail(rep)
  {
    var line, hs := [StatusLine(rep.status)], HeaderBuffers(rep.headers);
    ConcatAppend(line + hs, ["\r\n", rep.content]);
    ConcatAppend(line, hs);
    HeaderBuffersPrint(rep.headers);
    assert Concat([rep.content]) == rep.content + "" == rep.content;
    assert ["\r\n", rep.content][1..] == [rep.content];
    assert Concat(line) == StatusLine(rep.status) + "";
    Assoc(StatusLine(rep.status), PrintLines(PlainLines(rep.headers)), "\r\n" + rep.content);
  }

  /** server/reply.cpp `to_buffers`: the buffers, one behind the other, spell the whole reply. */
  method ToBuffers(rep: Reply) returns (buffers: seq<string>)
    ensures Concat(buffers) == StatusLine(rep.status) + Tail(rep)
  {
    buffers := [StatusLine(rep.status)];
    var i := 0;
    while i < |rep.headers|
      invariant i <= |rep.headers|
      invariant buffers == [StatusLine(rep.status)] + HeaderBuffers(rep.headers[..i])
    {
      var h := rep.headers[i];
      buffers := buffers + [h.name];
      buffers := buffers + [": "];
      buffers := buffers + [h.value];
      buffers := buffers + ["\r\n"];
      assert rep.headers[..i + 1][..i] == rep.headers[..i];
      i := i + 1;
    }
    assert rep.headers[..i] == rep.headers;
    buffers := buffers + ["\r\n"];
    buffers := buffers + [rep.content];
    BuffersSpell(rep, buffers);
  }

  /**
   Read by the request parser from where a header line starts, a reply's headers come back and what
   is left is its content.
   */
  lemma ReplyReadsBack(rep: Reply, req: Request)
    requires AreHeaders(rep.headers) && req.headers == []
    ensures var r := Run(Tail(rep), 0, AtLine(req));
      && r == Outcome(Good, |Tail(rep)| - |rep.content|, Machine(Newline3, req.(headers := rep.headers)))
      && Tail(rep)[r.at..] == rep.content
  {
    hide Run, PrintLines, PlainLines, AreHeaders, Tail;
    var head, next := PrintLines(PlainLines(rep.headers)), req.(headers := rep.headers);
    HeadersRead(rep.headers, req);
    BlankLineThen(next, rep.content);
    RunPrefix(head, "\r\n" + rep.content, 0, AtLine(req));
    RunShift(head, "\r\n" + rep.content, 0, AtLine(next));
    TailParts(rep);
  }

  lemma HeadersRead(hs: seq<Header>, req: Request)
    requires AreHeaders(hs) && req.headers == []
    ensures var head := PrintLines(PlainLines(hs));
      Run(head, 0, AtLine(req)) == Outcome(Indeterminate, |head|, AtLine(req.(headers := hs)))
  {
    hide Run, PrintLines, PlainLines, IsTokenText, IsValueText;
    AreLines(hs);
    EatsLines(req, PlainLines(hs));
    PlainMeaning(hs);
    assert req.headers + hs == hs;
  }

  lemma TailParts(rep: Reply)
    ensures var head := PrintLines(PlainLines(rep.headers));
      && Tail(rep) == head + ("\r\n" + rep.content) && |Tail(rep)| == |head| + 2 + |rep.content|
      && Tail(rep)[|head| + 2..] == rep.content
  {
    hide PrintLines, PlainLines;
    var head := PrintLines(PlainLines(rep.headers));
    Assoc(head, "\r\n", rep.content);
    DropConcat(head + "\r\n", rep.content, |head| + 2);
  }

  lemma AreLines(hs: seq<Header>)
    requires AreHeaders(hs)
    ensures forall k :: 0 <= k < |hs| ==> IsLine(PlainLines(hs)[k])
  {
  }

  lemma BlankLineThen(req: Request, content: string)
    ensures Run("\r\n" + content, 0, AtLine(req)) == Outcome(Good, 2, Machine(Newline3, req))
  {
    BlankLineIsGood(req);
    RunPrefix("\r\n", content, 0, AtLine(req));
  }

  // ---------- the length of a body ----------

  /** C's `atoi`, without the overflow it leaves undefined. */
  function Atoi(text: string): int {
    var i := SkipSpace(text, 0);
    var signed := i < |text| && (text[i] == '-' || text[i] == '+');
    var j := if signed then i + 1 else i;
    var k := DigitsEnd(text, j);
    assert AllDigits(text[j..k]);
    var n: int := Natural(text[j..k]);
    if signed && text[i] == '-' then -n else n
  }

  lemma AtoiReadsDecimal(n: nat)
    ensures Atoi(Decimal(n)) == n
  {
    var d := Decimal(n);
    assert IsDigit(d[0]);
    SkipSpaceIs(d, 0, 0);
    DigitsEndIs(d, 0, |d|);
    assert d[0..|d|] == d;
    DecimalIsNatural(n);
  }

  const LENGTH_NAME := "Content-Length"
  const TYPE_NAME := "Content-Type"

  /** The value of the first header of a name. */
  function FirstValue(hs: seq<Header>, name: string): Option<string> {
    if hs == [] then None else if hs[0].name == name then Some(hs[0].value) else FirstValue(hs[1..], name)
  }

  function ContentLength(hs: seq<Header>): int {
    match FirstValue(hs, LENGTH_NAME)
    case Some(value) => Atoi(value)
    case None => 0
  }

  /** server/request_parser.cpp `content_length`. */
  method ReadContentLength(hs: seq<Header>) returns (length: int)
    ensures match FirstValue(hs, "Content-Length")
      case Some(value) => length == Atoi(value)
      case None => length == 0
    ensures length == ContentLength(hs)
  {
    length := 0;
    var i := 0;
    while i < |hs| && hs[i].name != LENGTH_NAME
      invariant i <= |hs|
      invariant FirstValue(hs, LENGTH_NAME) == FirstValue(hs[i..], LENGTH_NAME)
    {
      assert hs[i..][1..] == hs[i + 1..];
      i := i + 1;
    }
    if i < |hs| { length := Atoi(hs[i].value); }
  }

  /** The headers `stock_reply` and the file branch of `handle_request` write. */
  function BodyHeaders(content: string, mime: string): seq<Header> {
    [Header(LENGTH_NAME, Decimal(|content|)), Header(TYPE_NAME, mime)]
  }

  function StockReply(status: int): Reply {
    Reply(status, BodyHeaders(StockContent(status), "text/html"), StockContent(status))
  }

  /** A reply whose first header announces the length of its content is read back with as many characters left. */
  lemma AnnouncedLengthIsLeft(rep: Reply, req: Request)
    requires AreHeaders(rep.headers) && rep.headers != [] && req.headers == []
    requires rep.headers[0] == Header("Content-Length", Decimal(|rep.content|))
    ensures var r := Run(Tail(rep), 0, AtLine(req));
      r.result == Good && ContentLength(r.machine.req.headers) == |rep.content| == |Tail(rep)| - r.at
  {
    ReplyReadsBack(rep, req);
    AtoiReadsDecimal(|rep.content|);
  }

  lemma TwoHeaders(a: Header, b: Header)
    requires IsTokenText(a.name) && IsValueText(a.value) && IsTokenText(b.name) && IsValueText(b.value)
    ensures AreHeaders([a, b])
  {
  }

  lemma NamesAreTokens()
    ensures IsTokenText("Content-Length") && IsTokenText("Content-Type")
  {
    hide IsTokenChar;
    forall c: char | 'a' <= c <= 'z' || 'A' <= c <= 'Z' || c == '-' ensures IsTokenChar(c) { LetterIsToken(c); }
  }

  lemma LetterIsToken(c: char)
    requires 'a' <= c <= 'z' || 'A' <= c <= 'Z' || c == '-'
    ensures IsTokenChar(c)
  {
  }

  lemma DigitsAreValues(digits: string)
    requires AllDigits(digits)
    ensures IsValueText(digits)
  {
  }

  /** The headers the server writes for a body are such headers. */
  lemma BodyHeadersAnnounce(content: string, mime: string)
    requires IsValueText(mime)
    ensures AreHeaders(BodyHeaders(content, mime))
    ensures BodyHeaders(content, mime) == [Header("Content-Length", Decimal(|content|)), Header("Content-Type", mime)]
  {
    hide IsTokenText, IsValueText, Decimal, AreHeaders;
    NamesAreTokens();
    DigitsAreValues(Decimal(|content|));
    TwoHeaders(Header("Content-Length", Decimal(|content|)), Header("Content-Type", mime));
  }

  lemma StockReplyIsConsistent(status: int, req: Request)
    requires req.headers == []
    ensures var r := Run(Tail(StockReply(status)), 0, AtLine(req));
      r.result == Good && ContentLength(r.machine.req.headers) == |Tail(StockReply(status))| - r.at
  {
    hide StockContent, Tail, ContentLength, Run;
    BodyHeadersAnnounce(StockContent(status), "text/html");
    AnnouncedLengthIsLeft(StockReply(status), req);
  }
}
