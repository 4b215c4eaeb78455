/** The handler that turns a request into a reply. Files are a map from full path to content. */
module RequestHandler {
  import opened CharClass
  import opened Options
  import opened Decimal
  import opened HttpMessage
  import opened ParserMachine
  import opened RequestPrinter
  import opened RequestParser
  import opened Reply
  import opened UrlCodec
  import opened RequestPath

  const CHUNK := 512

  function MimeType(extension: string): string {
    if extension == "gif" then "image/gif"
    else if extension == "htm" then "text/html"
    else if extension == "html" then "text/html"
    else if extension == "jpg" then "image/jpeg"
    else if extension == "png" then "image/png"
    else "text/plain"
  }

  /** The file a request for `uri` is answered from, if the request is acceptable. */
  function Target(docRoot: string, uri: string): Option<string> {
    match Decode(uri)
    case None => None
    case Some(path) => if PathOk(path) then Some(CString(docRoot + WithIndex(path))) else None
  }

  /** The reply that answers a request, given what the reply object held before. */
  function Handle(before: ReplyData, docRoot: string, uri: string, files: map<string, string>): ReplyData {
    match Target(docRoot, uri)
    case None => StockReply(BadRequest)
    case Some(file) =>
      if file !in files then StockReply(NotFound)
      else
        var content := before.content + files[file];
        ReplyData(Ok, ContentHeaders(content, MimeType(Extension(WithIndex(Decode(uri).value)))), content)
  }

  /** An input stream over a file, as far as block reads go. */
  class FileStream {
    const content: string
    var position: nat
    var good: bool

    ghost predicate Valid()
      reads this
    {
      position <= |content|
    }

    constructor (content: string)
      ensures Valid() && this.content == content && position == 0 && good
    {
      this.content := content;
      position, good := 0, true;
    }

    /** Reads up to `limit` characters. A short read leaves the stream in a failed state, and a
        failed stream reads nothing. */
    method Read(limit: nat) returns (block: string)
      requires Valid()
      modifies this
      ensures Valid() && good == (old(good) && |block| == limit)
      ensures position == old(position) + |block| && block == content[old(position)..position]
      ensures |block| == if !old(good) then 0
                         else if |content| - old(position) < limit then |content| - old(position) else limit
    {
      var count := if !good then 0 else if |content| - position < limit then |content| - position else limit;
      block := content[position..position + count];
      position := position + count;
      good := good && count == limit;
    }
  }

  /** The document root with the code that answers a request by filling a reply in place. */
  class Handler {
    const docRoot: string

    constructor (docRoot: string)
      ensures this.docRoot == docRoot
    {
      this.docRoot := docRoot;
    }

    method HandleRequest(req: Request, rep: Reply, files: map<string, string>)
      modifies rep
      ensures rep.Data() == Handle(old(rep.Data()), docRoot, req.uri, files)
    {
      var ok, requestPath, extension := CheckPath(req.uri);
      if !ok {
        rep.AssignStock(BadRequest);
        return;
      }
      var fullPath := CString(docRoot + requestPath);
      if fullPath !in files {
        rep.AssignStock(NotFound);
        return;
      }
      rep.status := Ok;
      AppendFile(rep, files[fullPath]);
      FillHeaders(rep, extension);
    }

    /** The first half of request handling: decode the URI, check the path, complete it and find
        its extension. */
    method CheckPath(uri: string) returns (ok: bool, requestPath: string, extension: string)
      ensures ok <==> Decode(uri).Some? && PathOk(Decode(uri).value)
      ensures ok ==> requestPath == WithIndex(Decode(uri).value) && extension == Extension(requestPath)
    {
      extension := "";
      ok, requestPath := UrlDecode(uri);
      if !ok {
        return;
      }
      if requestPath == "" || requestPath[0] != '/' || HasDotDot(requestPath) {
        ok := false;
        return;
      }
      if requestPath[|requestPath| - 1] == '/' {
        requestPath := requestPath + "index.html";
      }
      var lastSlash := LastIndexOf(requestPath, '/');
      var lastDot := LastIndexOf(requestPath, '.');
      if lastDot != -1 && lastDot > lastSlash {
        extension := requestPath[lastDot + 1..];
      }
    }

    method FillHeaders(rep: Reply, extension: string)
      modifies rep`headers
      ensures rep.headers == ContentHeaders(rep.content, MimeType(extension))
    {
      rep.headers := if |rep.headers| < 2 then rep.headers + seq(2 - |rep.headers|, _ => Header("", ""))
                     else rep.headers[..2];
      rep.headers := rep.headers[0 := Header("Content-Length", Numeral(|rep.content|))];
      rep.headers := rep.headers[1 := Header("Content-Type", MimeType(extension))];
      assert rep.headers == [rep.headers[0], rep.headers[1]];
    }

    /** Appends a file to the content of a reply, one block of 512 bytes after the other. */
    method AppendFile(rep: Reply, file: string)
      modifies rep`content
      ensures rep.content == old(rep.content) + file
    {
      var stream := new FileStream(file);
      var block := stream.Read(CHUNK);
      while |block| > 0
        invariant stream.Valid() && fresh(stream) && stream.content == file
        invariant |block| <= stream.position
        invariant rep.content + block == old(rep.content) + file[..stream.position]
        invariant block == "" ==> stream.position == |file|
        invariant !stream.good ==> stream.position == |file|
        decreases |file| - stream.position, |block|
      {
        rep.content := rep.content + block;
        ghost var before := stream.position;
        block := stream.Read(CHUNK);
        assert file[..before] + block == file[..stream.position];
        assert old(rep.content) + (file[..before] + block) == old(rep.content) + file[..before] + block;
      }
      assert file[..stream.position] == file;
      assert rep.content + "" == rep.content;
    }
  }

  // ---- What a client gets

  lemma MimeTypeOk(extension: string)
    ensures ValueText(MimeType(extension))
  {
  }

  /** Whatever the handler answers with announces its own length. */
  lemma HandledIsDelimited(before: ReplyData, docRoot: string, uri: string, files: map<string, string>)
    ensures Delimited(Handle(before, docRoot, uri, files))
  {
    StockIsDelimited(BadRequest);
    StockIsDelimited(NotFound);
    match Target(docRoot, uri)
    case None =>
    case Some(file) =>
      if file in files {
        var mimeType := MimeType(Extension(WithIndex(Decode(uri).value)));
        MimeTypeOk(Extension(WithIndex(Decode(uri).value)));
        ContentHeadersOk(before.content + files[file], mimeType);
      }
  }

  /** A reply of status 200 carries exactly the bytes of the file, if and only if the reply
      object it was made in had no content. */
  lemma OkCarriesFile(before: ReplyData, docRoot: string, uri: string, files: map<string, string>)
    requires Handle(before, docRoot, uri, files).status == Ok
    ensures Target(docRoot, uri).Some? && Target(docRoot, uri).value in files
    ensures Handle(before, docRoot, uri, files).content == files[Target(docRoot, uri).value] <==> before.content == ""
  {
    var file := files[Target(docRoot, uri).value];
    assert |before.content + file| == |before.content| + |file|;
    assert "" + file == file;
  }

  /** The content type of a 200 reply is that of what follows the last dot in the last segment of
      the completed path. */
  lemma TypeOfLastSegment(before: ReplyData, docRoot: string, uri: string, files: map<string, string>)
    requires Handle(before, docRoot, uri, files).status == Ok
    ensures Decode(uri).Some? && PathOk(Decode(uri).value)
    ensures var segments := Segments(WithIndex(Decode(uri).value));
            exists e :: IsExtensionOf(e, segments[|segments| - 1])
                        && Handle(before, docRoot, uri, files).headers[1..] == [Header("Content-Type", MimeType(e))]
  {
    ExtensionOfLastSegment(WithIndex(Decode(uri).value));
  }

  lemma WholeCString(s: string)
    ensures CString(s) == s <==> '\0' !in s
  {
    assert forall i | 0 <= i < |s| :: s[i] in s;
  }

  lemma IndexAddsNoNul(docRoot: string, path: string)
    requires path != ""
    ensures '\0' in docRoot + WithIndex(path) <==> '\0' in docRoot + path
  {
    assert '\0' !in "index.html";
  }

  /** An encoded path is answered from the file of that path, the index page for a directory, if
      and only if the path passes the checks and no NUL cuts the name short. */
  lemma TargetOfEncoded(kept: set<char>, docRoot: string, path: string)
    requires Bytes(path) && path != "" && '%' !in kept && '+' !in kept
    ensures Target(docRoot, Encode(kept, path)) == Some(docRoot + WithIndex(path))
       <==> PathOk(path) && '\0' !in docRoot + path
  {
    DecodeEncode(kept, path);
    if PathOk(path) {
      IndexAddsNoNul(docRoot, path);
      WholeCString(docRoot + WithIndex(path));
    }
  }

  /** A client that reads the answer of a fresh reply object finds the file. */
  lemma ClientFindsFile(d: Config, before: ReplyData, docRoot: string, uri: string, files: map<string, string>)
    requires Sound(d) && d.state == HeaderLineStart && d.req.headers == []
    requires before.content == ""
    requires Target(docRoot, uri).Some? && Target(docRoot, uri).value in files
    ensures AfterFirstLine(Wire(Handle(before, docRoot, uri, files))).Some?
    ensures var reply := Handle(before, docRoot, uri, files);
            var rest := AfterFirstLine(Wire(reply)).value;
            var o := Run(d, rest);
            && reply.status == Ok && o.verdict == Good && o.config.req.headers == reply.headers
            && o.config.req.headers != []
            && |rest| - o.consumed == NumeralValue(o.config.req.headers[0].value)
            && rest[o.consumed..] == files[Target(docRoot, uri).value]
  {
    var reply := Handle(before, docRoot, uri, files);
    HandledIsDelimited(before, docRoot, uri, files);
    OkCarriesFile(before, docRoot, uri, files);
    ClientFindsContent(d, reply);
  }

  /** From the path of a file to its bytes: encode the path below the document root, print a
      request for it, parse that, handle it in a fresh reply and read the reply as a client does;
      what comes out is the file. */
  lemma FileRoundTrip(c: Config, d: Config, kept: set<char>, docRoot: string, path: string,
                      q: RequestData, after: string, files: map<string, string>, before: ReplyData)
    requires Fresh(c) && Sound(d) && d.state == HeaderLineStart && d.req.headers == []
    requires Bytes(path) && PathOk(path) && '\0' !in docRoot + path && '%' !in kept && '+' !in kept
    requires Printable(q) && q.uri == Encode(kept, path)
    requires before.content == "" && docRoot + WithIndex(path) in files
    ensures var parsed := Run(c, Print(q) + after);
            var reply := Handle(before, docRoot, parsed.config.req.uri, files);
            var rest := AfterFirstLine(Wire(reply));
            && parsed.verdict == Good && rest.Some?
            && rest.value[Run(d, rest.value).consumed..] == files[docRoot + WithIndex(path)]
  {
    PrintThenParse(c, q, after);
    TargetOfEncoded(kept, docRoot, path);
    ClientFindsFile(d, before, docRoot, q.uri, files);
  }

  // ---- Which answer is given

  /** Absolute, and with no two dots in a row. */
  predicate Acceptable(path: string) {
    path != "" && path[0] == '/' && !exists i :: 0 <= i < |path| - 1 && path[i] == '.' && path[i + 1] == '.'
  }

  /** The name of the file that is opened: the index page for a directory, and cut off at a NUL. */
  function FileName(docRoot: string, path: string): string
    requires path != ""
  {
    CString(docRoot + path + if path[|path| - 1] == '/' then "index.html" else "")
  }

  /** Whether a file is asked for in an acceptable way. */
  predicate AsksForFile(uri: string) {
    Decode(uri).Some? && Acceptable(Decode(uri).value)
  }

  lemma AcceptablePath(path: string)
    ensures PathOk(path) <==> Acceptable(path)
  {
  }

  lemma SameFileName(docRoot: string, path: string)
    requires path != ""
    ensures CString(docRoot + WithIndex(path)) == FileName(docRoot, path)
  {
    if path[|path| - 1] == '/' {
      assert docRoot + (path + "index.html") == docRoot + path + "index.html";
    } else {
      assert docRoot + path + "" == docRoot + path;
    }
  }

  /** The request is bad if and only if its URI does not decode or names no acceptable path; it is
      answered with 404 if and only if the path is acceptable and its file is missing, and with 200
      if and only if the file is there. */
  lemma StatusIsExact(before: ReplyData, docRoot: string, uri: string, files: map<string, string>)
    ensures var reply := Handle(before, docRoot, uri, files);
            && (!AsksForFile(uri) <==> reply.status == BadRequest)
            && (AsksForFile(uri) && FileName(docRoot, Decode(uri).value) !in files <==> reply.status == NotFound)
            && (AsksForFile(uri) && FileName(docRoot, Decode(uri).value) in files <==> reply.status == Ok)
            && (reply.status != Ok ==> reply == StockReply(reply.status))
  {
    if Decode(uri).Some? {
      var path := Decode(uri).value;
      AcceptablePath(path);
      if path != "" {
        SameFileName(docRoot, path);
      }
    }
  }

  /** The types that are told by the extension. */
  lemma MimeTypeWrittenOut(extension: string)
    ensures MimeType(extension)
         == match extension
            case "gif" => "image/gif"
            case "htm" => "text/html"
            case "html" => "text/html"
            case "jpg" => "image/jpeg"
            case "png" => "image/png"
            case _ => "text/plain"
  {
  }
}
