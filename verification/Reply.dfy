/** Replies: how they are put on the wire, the stock replies, and what a client that reads the
    wire with the request parser's header machine gets back. */
module Reply {
  import opened CharClass
  import opened Options
  import opened Decimal
  import opened HttpMessage
  import opened ParserMachine
  import opened RequestGrammar
  import opened ParserLanguage
  import opened RequestPrinter

  datatype Status =
    | Ok
    | Created
    | Accepted
    | NoContent
    | MultipleChoices
    | MovedPermanently
    | MovedTemporarily
    | NotModified
    | BadRequest
    | Unauthorized
    | Forbidden
    | NotFound
    | InternalServerError
    | NotImplemented
    | BadGateway
    | ServiceUnavailable

  /** The number of a status. */
  function StatusNumber(status: Status): nat {
    match status
    case Ok => 200
    case Created => 201
    case Accepted => 202
    case NoContent => 204
    case MultipleChoices => 300
    case MovedPermanently => 301
    case MovedTemporarily => 302
    case NotModified => 304
    case BadRequest => 400
    case Unauthorized => 401
    case Forbidden => 403
    case NotFound => 404
    case InternalServerError => 500
    case NotImplemented => 501
    case BadGateway => 502
    case ServiceUnavailable => 503
  }

  /** The three digits it is sent as. */
  function Code(status: Status): string {
    match status
    case Ok => "200"
    case Created => "201"
    case Accepted => "202"
    case NoContent => "204"
    case MultipleChoices => "300"
    case MovedPermanently => "301"
    case MovedTemporarily => "302"
    case NotModified => "304"
    case BadRequest => "400"
    case Unauthorized => "401"
    case Forbidden => "403"
    case NotFound => "404"
    case InternalServerError => "500"
    case NotImplemented => "501"
    case BadGateway => "502"
    case ServiceUnavailable => "503"
  }

  function Phrase(status: Status): string {
    match status
    case Ok => "OK"
    case Created => "Created"
    case Accepted => "Accepted"
    case NoContent => "No Content"
    case MultipleChoices => "Multiple Choices"
    case MovedPermanently => "Moved Permanently"
    case MovedTemporarily => "Moved Temporarily"
    case NotModified => "Not Modified"
    case BadRequest => "Bad Request"
    case Unauthorized => "Unauthorized"
    case Forbidden => "Forbidden"
    case NotFound => "Not Found"
    case InternalServerError => "Internal Server Error"
    case NotImplemented => "Not Implemented"
    case BadGateway => "Bad Gateway"
    case ServiceUnavailable => "Service Unavailable"
  }

  /** Code and phrase, as they follow the protocol version on the status line. */
  function StatusText(status: Status): string {
    Code(status) + " " + Phrase(status)
  }

  function StatusLine(status: Status): string {
    "HTTP/1.0 " + StatusText(status) + CRLF
  }

  /** The page that goes with a stock reply. Its heading repeats the status text, but for
      `204 Content`. */
  function StockContent(status: Status): string {
    if status == Ok then ""
    else
      "<html><head><title>" + Phrase(status)
      + "</title></head><body><h1>" + (if status == NoContent then "204 Content" else StatusText(status))
      + "</h1></body></html>"
  }

  datatype ReplyData = ReplyData(status: Status, headers: seq<Header>, content: string)

  /** What goes over the connection: status line, header lines, empty line, content. */
  function Wire(r: ReplyData): string {
    StatusLine(r.status) + (HeaderLines(r.headers) + CRLF + r.content)
  }

  function ContentHeaders(content: string, mimeType: string): seq<Header> {
    [Header("Content-Length", Numeral(|content|)), Header("Content-Type", mimeType)]
  }

  function StockReply(status: Status): ReplyData {
    ReplyData(status, ContentHeaders(StockContent(status), "text/html"), StockContent(status))
  }

  /** The reply object of a connection, with the fields the handler fills in place. */
  class Reply {
    var status: Status
    var headers: seq<Header>
    var content: string

    /** No headers and no content; the status is not initialised. */
    constructor ()
      ensures headers == [] && content == ""
    {
      headers, content := [], "";
    }

    function Data(): ReplyData
      reads this
    {
      ReplyData(status, headers, content)
    }

    /** The buffers that are written to the connection, in order. */
    method ToBuffers() returns (buffers: seq<string>)
      ensures Concat(buffers) == Wire(Data())
    {
      buffers := [StatusLine(status)];
      var i := 0;
      while i < |headers|
        invariant 0 <= i <= |headers|
        invariant Concat(buffers) == StatusLine(status) + HeaderLines(headers[..i])
      {
        var h := headers[i];
        ghost var before := buffers;
        buffers := buffers + [h.name];
        buffers := buffers + [": "];
        buffers := buffers + [h.value];
        buffers := buffers + [CRLF];
        AfterLine(before, buffers, StatusLine(status), headers, i);
        i := i + 1;
      }
      assert headers[..i] == headers;
      ghost var before := buffers;
      buffers := buffers + [CRLF];
      buffers := buffers + [content];
      AfterContent(before, buffers, StatusLine(status), HeaderLines(headers), content);
    }

    /** `*this = stock_reply(status)` */
    method AssignStock(status: Status)
      modifies this
      ensures Data() == StockReply(status)
    {
      this.status := status;
      content := StockContent(status);
      headers := [Header("", ""), Header("", "")];
      headers := headers[0 := headers[0].(name := "Content-Length")];
      headers := headers[0 := headers[0].(value := Numeral(|content|))];
      headers := headers[1 := headers[1].(name := "Content-Type")];
      headers := headers[1 := headers[1].(value := "text/html")];
    }
  }

  lemma ConcatTwo(a: string, b: string)
    ensures Concat([a, b]) == a + b
  {
    assert [a, b][1..] == [b] && [b][1..] == [];
    assert Concat([b]) == b + "" == b;
  }

  lemma ConcatLine(before: seq<string>, h: Header)
    ensures Concat(before + [h.name, ": ", h.value, CRLF]) == Concat(before) + HeaderLine(h)
  {
    var line := [h.name, ": ", h.value, CRLF];
    ConcatAppend(before, line);
    ConcatAppend([h.name, ": "], [h.value, CRLF]);
    ConcatTwo(h.name, ": ");
    ConcatTwo(h.value, CRLF);
    assert line == [h.name, ": "] + [h.value, CRLF];
    assert (h.name + ": ") + (h.value + CRLF) == HeaderLine(h);
  }

  lemma {:induction false} HeaderLinesSnoc(headers: seq<Header>, h: Header)
    ensures HeaderLines(headers + [h]) == HeaderLines(headers) + HeaderLine(h)
  {
    if headers == [] {
      assert HeaderLine(h) + "" == HeaderLine(h);
    } else {
      HeaderLinesSnoc(headers[1..], h);
      assert (headers + [h])[1..] == headers[1..] + [h];
    }
  }

  lemma AfterLine(before: seq<string>, after: seq<string>, first: string, headers: seq<Header>, i: nat)
    requires i < |headers| && Concat(before) == first + HeaderLines(headers[..i])
    requires after == before + [headers[i].name] + [": "] + [headers[i].value] + [CRLF]
    ensures Concat(after) == first + HeaderLines(headers[..i + 1])
  {
    var h := headers[i];
    assert after == before + [h.name, ": ", h.value, CRLF];
    ConcatLine(before, h);
    HeaderLinesSnoc(headers[..i], h);
    assert headers[..i + 1] == headers[..i] + [h];
  }

  lemma AfterContent(before: seq<string>, after: seq<string>, first: string, lines: string, content: string)
    requires Concat(before) == first + lines
    requires after == before + [CRLF] + [content]
    ensures Concat(after) == first + (lines + CRLF + content)
  {
    assert after == before + [CRLF, content];
    ConcatAppend(before, [CRLF, content]);
    ConcatTwo(CRLF, content);
    assert (first + lines) + (CRLF + content) == first + (lines + CRLF + content);
  }

  // ---- Reading a reply back

  lemma PrintedHeadersAreRead(c: Config, headers: seq<Header>, content: string)
    requires Sound(c) && c.state == HeaderLineStart && c.req.headers == [] && HeadersOk(headers)
    ensures Run(c, HeaderLines(headers) + CRLF + content)
         == Outcome(Good, |HeaderLines(headers)| + 2, Config(ExpectingNewline3, c.req.(headers := headers)))
  {
    PlainFieldsText(headers);
    HeaderSectionAccepted(c, PlainFields(headers), content);
    assert [] + headers == headers;
  }

  /** The parser only ever builds headers with token names and CTL-free values. */
  lemma ReadHeadersAreOk(c: Config, s: string)
    requires Sound(c) && c.state == HeaderLineStart && c.req.headers == [] && Run(c, s).verdict == Good
    ensures HeadersOk(Run(c, s).config.req.headers)
  {
    var folds, fields := AcceptedHeaderSection(c, s);
    var text := FieldsText(fields) + CRLF;
    assert SectionText([], fields) == text;
    HeaderSectionAccepted(c, fields, s[|text|..]);
    assert text + s[|text|..] == s;
    assert [] + FieldsMeaning(fields) == FieldsMeaning(fields);
    FieldsMeaningOk(fields);
  }

  /** Reading printed header lines with the parser, from the start of a header line and with no
      headers yet, is good exactly at the first content byte and recovers the list, if and only
      if every name is a non-empty token and no value holds a control character. */
  lemma HeaderRoundTrip(c: Config, headers: seq<Header>, content: string)
    requires Sound(c) && c.state == HeaderLineStart && c.req.headers == []
    ensures HeadersOk(headers)
       <==> (var o := Run(c, HeaderLines(headers) + CRLF + content);
             o.verdict == Good && o.consumed == |HeaderLines(headers) + CRLF| && o.config.req.headers == headers)
  {
    if HeadersOk(headers) {
      PrintedHeadersAreRead(c, headers, content);
    } else if Run(c, HeaderLines(headers) + CRLF + content).verdict == Good {
      ReadHeadersAreOk(c, HeaderLines(headers) + CRLF + content);
    }
  }

  /** The first header announces the length of the content. */
  predicate Delimited(r: ReplyData) {
    HeadersOk(r.headers) && |r.headers| > 0 && r.headers[0] == Header("Content-Length", Numeral(|r.content|))
  }

  // ---- The first line

  /** `name: value` and a line end, for each header. */
  function PrintedLines(headers: seq<Header>): string {
    if headers == [] then ""
    else headers[0].name + ": " + headers[0].value + "\r\n" + PrintedLines(headers[1..])
  }

  lemma {:induction false} SamePrintedLines(headers: seq<Header>)
    ensures HeaderLines(headers) == PrintedLines(headers)
  {
    if headers != [] {
      SamePrintedLines(headers[1..]);
    }
  }

  lemma ThreeDigits(a: char, b: char, c: char)
    ensures NumeralValue([a, b, c]) == 100 * DigitValue(a) + 10 * DigitValue(b) + DigitValue(c)
  {
    assert [a, b, c][..2] == [a, b] && [a, b][..1] == [a] && [a][..0] == "";
    assert Accumulate(0, [a]) == DigitValue(a);
    assert Accumulate(0, [a, b]) == 10 * DigitValue(a) + DigitValue(b);
  }

  lemma CodeIsNumber(status: Status)
    ensures |Code(status)| == 3 && DigitText(Code(status)) && NumeralValue(Code(status)) == StatusNumber(status)
  {
    var code := Code(status);
    assert code == [code[0], code[1], code[2]];
    ThreeDigits(code[0], code[1], code[2]);
  }

  lemma PhraseInLine(status: Status)
    ensures '\r' !in Phrase(status) && '\n' !in Phrase(status)
  {
    if StatusNumber(status) < 400 {
      SuccessInLine(status);
    } else if StatusNumber(status) < 500 {
      ClientErrorInLine(status);
    } else {
      ServerErrorInLine(status);
    }
  }

  lemma SuccessInLine(status: Status)
    requires StatusNumber(status) < 400
    ensures '\r' !in Phrase(status) && '\n' !in Phrase(status)
  {
  }

  lemma ClientErrorInLine(status: Status)
    requires 400 <= StatusNumber(status) < 500
    ensures '\r' !in Phrase(status) && '\n' !in Phrase(status)
  {
  }

  lemma ServerErrorInLine(status: Status)
    requires StatusNumber(status) >= 500
    ensures '\r' !in Phrase(status) && '\n' !in Phrase(status)
  {
    match status
    case InternalServerError => LettersInLine("Internal", "Server Error");
    case ServiceUnavailable => LettersInLine("Service", "Unavailable");
    case _ =>
  }

  lemma LettersInLine(front: string, back: string)
    requires '\r' !in front + back && '\n' !in front + back
    ensures '\r' !in front + " " + back && '\n' !in front + " " + back
  {
  }

  /** The bytes on the wire: protocol version, three digits, a phrase within its line, the header
      lines, an empty line, and the content. */
  lemma WireWrittenOut(r: ReplyData)
    ensures Wire(r) == "HTTP/1.0 " + Code(r.status) + " " + Phrase(r.status) + "\r\n"
                       + (PrintedLines(r.headers) + "\r\n" + r.content)
    ensures |Code(r.status)| == 3 && DigitText(Code(r.status)) && NumeralValue(Code(r.status)) == StatusNumber(r.status)
    ensures '\r' !in Phrase(r.status) && '\n' !in Phrase(r.status)
  {
    CodeIsNumber(r.status);
    PhraseInLine(r.status);
    SamePrintedLines(r.headers);
    assert StatusLine(r.status) == "HTTP/1.0 " + Code(r.status) + " " + Phrase(r.status) + "\r\n";
  }

  /** What is behind the first line end. */
  function AfterFirstLine(s: string): Option<string> {
    if |s| < 2 then None
    else if s[0] == '\r' && s[1] == '\n' then Some(s[2..])
    else AfterFirstLine(s[1..])
  }

  lemma {:induction false} CutAtLineEnd(line: string, rest: string)
    requires '\r' !in line
    ensures AfterFirstLine(line + "\r\n" + rest) == Some(rest)
  {
    var s := line + "\r\n" + rest;
    if line == "" {
      assert s[2..] == rest;
    } else {
      assert s[0] == line[0] != '\r';
      assert s[1..] == line[1..] + "\r\n" + rest;
      CutAtLineEnd(line[1..], rest);
    }
  }

  lemma NoReturnInCode(status: Status)
    ensures '\r' !in "HTTP/1.0 " + Code(status) + " " + Phrase(status)
  {
    CodeIsNumber(status);
    PhraseInLine(status);
    assert '\r' !in Code(status);
  }

  lemma WireFirstLine(r: ReplyData)
    ensures AfterFirstLine(Wire(r)) == Some(HeaderLines(r.headers) + CRLF + r.content)
  {
    WireWrittenOut(r);
    SamePrintedLines(r.headers);
    NoReturnInCode(r.status);
    CutAtLineEnd("HTTP/1.0 " + Code(r.status) + " " + Phrase(r.status), HeaderLines(r.headers) + CRLF + r.content);
  }

  /** A client that cuts off the first line and reads header lines up to the empty line knows how
      many bytes are still to come. */
  lemma ClientFindsContent(c: Config, r: ReplyData)
    requires Sound(c) && c.state == HeaderLineStart && c.req.headers == []
    requires Delimited(r)
    ensures AfterFirstLine(Wire(r)).Some?
    ensures var rest := AfterFirstLine(Wire(r)).value;
            var o := Run(c, rest);
            && o.verdict == Good
            && o.config.req.headers == r.headers
            && r.headers[0].name == "Content-Length"
            && NumeralValue(o.config.req.headers[0].value) == |rest| - o.consumed
            && rest[o.consumed..] == r.content
  {
    WireFirstLine(r);
    PrintedHeadersAreRead(c, r.headers, r.content);
    NumeralRoundTrip(|r.content|);
  }

  lemma ContentHeadersOk(content: string, mimeType: string)
    requires ValueText(mimeType)
    ensures HeadersOk(ContentHeaders(content, mimeType))
  {
    ContentLengthIsToken();
    ContentTypeIsToken();
    var numeral := Numeral(|content|);
    assert ValueText(numeral);
  }

  lemma ContentLengthIsToken()
    ensures TokenText("Content-Length")
  {
  }

  lemma ContentTypeIsToken()
    ensures TokenText("Content-Type")
  {
  }

  /** Every stock reply announces its own length. */
  lemma StockIsDelimited(status: Status)
    ensures Delimited(StockReply(status))
  {
    ContentHeadersOk(StockContent(status), "text/html");
  }

  /** A stock reply has its status, and a page that is announced as such. */
  lemma StockWrittenOut(status: Status)
    ensures var r := StockReply(status);
            && r.status == status && |r.headers| == 2
            && r.headers[0].name == "Content-Length" && r.headers[0].value == Numeral(|r.content|)
            && r.headers[1] == Header("Content-Type", "text/html")
  {
  }
}
