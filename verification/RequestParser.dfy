/** The request parser in the form the server uses it: an object that keeps its state between
    calls and builds the request in place. */
module RequestParser {
  import opened CharClass
  import opened HttpMessage
  import opened ParserMachine

  /** The request object that the parser pushes bytes into. */
  class Request {
    var methodName: string
    var uri: string
    var major: int
    var minor: int
    var headers: seq<Header>

    /** The strings and the header list start empty; the version numbers start undefined. */
    constructor ()
      ensures methodName == "" && uri == "" && headers == []
    {
      methodName, uri, headers := "", "", [];
    }

    function Data(): RequestData
      reads this
    {
      RequestData(methodName, uri, major, minor, headers)
    }
  }

  /** The machine of `ParserMachine` as an object: its state is a field, its request a parameter. */
  class Parser {
    var state: State

    constructor ()
      ensures state == MethodStart
    {
      state := MethodStart;
    }

    function Config(req: Request): ParserMachine.Config
      reads this, req
    {
      ParserMachine.Config(state, req.Data())
    }

    method Reset()
      modifies this
      ensures state == MethodStart
    {
      state := MethodStart;
    }

    /** The switch over the states, one branch per byte; it takes exactly the step of the machine. */
    method Consume(req: Request, input: char) returns (result: Verdict)
      requires Sound(Config(req))
      modifies this, req
      ensures StepResult(Config(req), result) == Step(old(Config(req)), input)
    {
      result := Indeterminate;
      match state {
        case MethodStart =>
          if !IsChar(input) || IsCtl(input) || IsTspecial(input) {
            result := Bad;
          } else {
            state := Method;
            req.methodName := req.methodName + [input];
          }
        case Method =>
          if input == ' ' {
            state := Uri;
          } else if !IsChar(input) || IsCtl(input) || IsTspecial(input) {
            result := Bad;
          } else {
            req.methodName := req.methodName + [input];
          }
        case Uri =>
          if input == ' ' {
            state := HttpVersionH;
          } else if IsCtl(input) {
            result := Bad;
          } else {
            req.uri := req.uri + [input];
          }
        case HttpVersionH =>
          if input == 'H' { state := HttpVersionT1; } else { result := Bad; }
        case HttpVersionT1 =>
          if input == 'T' { state := HttpVersionT2; } else { result := Bad; }
        case HttpVersionT2 =>
          if input == 'T' { state := HttpVersionP; } else { result := Bad; }
        case HttpVersionP =>
          if input == 'P' { state := HttpVersionSlash; } else { result := Bad; }
        case HttpVersionSlash =>
          if input == '/' {
            req.major := 0;
            req.minor := 0;
            state := HttpVersionMajorStart;
          } else {
            result := Bad;
          }
        case HttpVersionMajorStart =>
          if IsDigit(input) {
            req.major := req.major * 10 + input as int - '0' as int;
            state := HttpVersionMajor;
          } else {
            result := Bad;
          }
        case HttpVersionMajor =>
          if input == '.' {
            state := HttpVersionMinorStart;
          } else if IsDigit(input) {
            req.major := req.major * 10 + input as int - '0' as int;
          } else {
            result := Bad;
          }
        case HttpVersionMinorStart =>
          if IsDigit(input) {
            req.minor := req.minor * 10 + input as int - '0' as int;
            state := HttpVersionMinor;
          } else {
            result := Bad;
          }
        case HttpVersionMinor =>
          if input == '\r' {
            state := ExpectingNewline1;
          } else if IsDigit(input) {
            req.minor := req.minor * 10 + input as int - '0' as int;
          } else {
            result := Bad;
          }
        case ExpectingNewline1 =>
          if input == '\n' { state := HeaderLineStart; } else { result := Bad; }
        case HeaderLineStart =>
          if input == '\r' {
            state := ExpectingNewline3;
          } else if req.headers != [] && (input == ' ' || input == '\t') {
            state := HeaderLws;
          } else if !IsChar(input) || IsCtl(input) || IsTspecial(input) {
            result := Bad;
          } else {
            req.headers := req.headers + [Header("", "")];
            req.headers := ExtendLastName(req.headers, [input]);
            assert "" + [input] == [input];
            assert req.headers == old(req.headers) + [Header([input], "")];
            state := HeaderName;
          }
        case HeaderLws =>
          if input == '\r' {
            state := ExpectingNewline2;
          } else if input == ' ' || input == '\t' {
          } else if IsCtl(input) {
            result := Bad;
          } else {
            state := HeaderValue;
            req.headers := ExtendLastValue(req.headers, [input]);
          }
        case HeaderName =>
          if input == ':' {
            state := SpaceBeforeHeaderValue;
          } else if !IsChar(input) || IsCtl(input) || IsTspecial(input) {
            result := Bad;
          } else {
            req.headers := ExtendLastName(req.headers, [input]);
          }
        case SpaceBeforeHeaderValue =>
          if input == ' ' { state := HeaderValue; } else { result := Bad; }
        case HeaderValue =>
          if input == '\r' {
            state := ExpectingNewline2;
          } else if IsCtl(input) {
            result := Bad;
          } else {
            req.headers := ExtendLastValue(req.headers, [input]);
          }
        case ExpectingNewline2 =>
          if input == '\n' { state := HeaderLineStart; } else { result := Bad; }
        case ExpectingNewline3 =>
          result := if input == '\n' then Good else Bad;
      }
    }

    /** Parse the bytes from `begin` up to `end`; `position` is where parsing stopped. */
    method Parse(req: Request, buffer: array<char>, begin: nat, end: nat)
      returns (result: Verdict, position: nat)
      requires begin <= end <= buffer.Length
      requires Sound(Config(req))
      modifies this, req
      ensures begin <= position <= end
      ensures Outcome(result, position - begin, Config(req)) == Run(old(Config(req)), buffer[begin..end])
    {
      position := begin;
      while position != end
        invariant begin <= position <= end
        invariant Sound(Config(req))
        invariant Run(old(Config(req)), buffer[begin..end])
               == Shift(Run(Config(req), buffer[position..end]), position - begin)
        decreases end - position
      {
        ghost var rest := buffer[position..end];
        assert rest[0] == buffer[position] && rest[1..] == buffer[position + 1..end];
        result := Consume(req, buffer[position]);
        position := position + 1;
        if result == Good || result == Bad {
          return;
        }
      }
      result := Indeterminate;
    }
  }
}
