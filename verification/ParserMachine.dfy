/** The request parser as a transition function on values: one step per byte, and whole runs.
    The class in RequestParser.dfy is proved to compute exactly this function. */
module ParserMachine {
  import opened CharClass
  import opened Decimal
  import opened HttpMessage

  datatype State =
    | MethodStart
    | Method
    | Uri
    | HttpVersionH
    | HttpVersionT1
    | HttpVersionT2
    | HttpVersionP
    | HttpVersionSlash
    | HttpVersionMajorStart
    | HttpVersionMajor
    | HttpVersionMinorStart
    | HttpVersionMinor
    | ExpectingNewline1
    | HeaderLineStart
    | HeaderLws
    | HeaderName
    | SpaceBeforeHeaderValue
    | HeaderValue
    | ExpectingNewline2
    | ExpectingNewline3

  datatype Verdict = Good | Bad | Indeterminate

  datatype Config = Config(state: State, req: RequestData)

  /** The states that work on `headers.back()`, with the one that leads to them, are only
      entered once a header has been pushed. */
  predicate Sound(c: Config) {
    c.state in {HeaderLws, HeaderName, SpaceBeforeHeaderValue, HeaderValue, ExpectingNewline2}
    ==> c.req.headers != []
  }

  /** A parser in its first state beside a request nothing has been pushed into. The version
      fields of such a request are not initialised. */
  predicate Fresh(c: Config) {
    c.state == MethodStart && c.req.methodName == "" && c.req.uri == "" && c.req.headers == []
  }

  datatype StepResult = StepResult(config: Config, verdict: Verdict)

  function Go(c: Config, state: State): StepResult {
    StepResult(c.(state := state), Indeterminate)
  }

  function Put(state: State, req: RequestData): StepResult {
    StepResult(Config(state, req), Indeterminate)
  }

  function Reject(c: Config): StepResult {
    StepResult(c, Bad)
  }

  function Expect(c: Config, input: char, wanted: char, next: State): StepResult {
    if input == wanted then Go(c, next) else Reject(c)
  }

  function Step(c: Config, input: char): (r: StepResult)
    requires Sound(c)
    ensures Sound(r.config)
  {
    var q := c.req;
    match c.state
    case MethodStart =>
      if !IsTokenChar(input) then Reject(c)
      else Put(Method, q.(methodName := q.methodName + [input]))
    case Method =>
      if input == ' ' then Go(c, Uri)
      else if !IsTokenChar(input) then Reject(c)
      else Put(Method, q.(methodName := q.methodName + [input]))
    case Uri =>
      if input == ' ' then Go(c, HttpVersionH)
      else if IsCtl(input) then Reject(c)
      else Put(Uri, q.(uri := q.uri + [input]))
    case HttpVersionH => Expect(c, input, 'H', HttpVersionT1)
    case HttpVersionT1 => Expect(c, input, 'T', HttpVersionT2)
    case HttpVersionT2 => Expect(c, input, 'T', HttpVersionP)
    case HttpVersionP => Expect(c, input, 'P', HttpVersionSlash)
    case HttpVersionSlash =>
      if input == '/' then Put(HttpVersionMajorStart, q.(major := 0, minor := 0)) else Reject(c)
    case HttpVersionMajorStart =>
      if IsDigit(input) then Put(HttpVersionMajor, q.(major := q.major * 10 + DigitValue(input)))
      else Reject(c)
    case HttpVersionMajor =>
      if input == '.' then Go(c, HttpVersionMinorStart)
      else if IsDigit(input) then Put(HttpVersionMajor, q.(major := q.major * 10 + DigitValue(input)))
      else Reject(c)
    case HttpVersionMinorStart =>
      if IsDigit(input) then Put(HttpVersionMinor, q.(minor := q.minor * 10 + DigitValue(input)))
      else Reject(c)
    case HttpVersionMinor =>
      if input == '\r' then Go(c, ExpectingNewline1)
      else if IsDigit(input) then Put(HttpVersionMinor, q.(minor := q.minor * 10 + DigitValue(input)))
      else Reject(c)
    case ExpectingNewline1 => Expect(c, input, '\n', HeaderLineStart)
    case HeaderLineStart =>
      if input == '\r' then Go(c, ExpectingNewline3)
      else if q.headers != [] && IsBlank(input) then Go(c, HeaderLws)
      else if !IsTokenChar(input) then Reject(c)
      else Put(HeaderName, q.(headers := q.headers + [Header([input], "")]))
    case HeaderLws =>
      if input == '\r' then Go(c, ExpectingNewline2)
      else if IsBlank(input) then Go(c, HeaderLws)
      else if IsCtl(input) then Reject(c)
      else Put(HeaderValue, q.(headers := ExtendLastValue(q.headers, [input])))
    case HeaderName =>
      if input == ':' then Go(c, SpaceBeforeHeaderValue)
      else if !IsTokenChar(input) then Reject(c)
      else Put(HeaderName, q.(headers := ExtendLastName(q.headers, [input])))
    case SpaceBeforeHeaderValue => Expect(c, input, ' ', HeaderValue)
    case HeaderValue =>
      if input == '\r' then Go(c, ExpectingNewline2)
      else if IsCtl(input) then Reject(c)
      else Put(HeaderValue, q.(headers := ExtendLastValue(q.headers, [input])))
    case ExpectingNewline2 => Expect(c, input, '\n', HeaderLineStart)
    case ExpectingNewline3 => StepResult(c, if input == '\n' then Good else Bad)
  }

  /** What a parse of some bytes yields: the verdict, the number of bytes taken, and the parser
      and request it leaves behind. */
  datatype Outcome = Outcome(verdict: Verdict, consumed: nat, config: Config)

  function Shift(o: Outcome, n: nat): Outcome {
    o.(consumed := o.consumed + n)
  }

  function Run(c: Config, s: string): (o: Outcome)
    requires Sound(c)
    ensures Sound(o.config) && o.consumed <= |s|
    ensures o.verdict == Indeterminate ==> o.consumed == |s|
    ensures o.verdict != Indeterminate ==> o.consumed > 0
    decreases |s|
  {
    if s == "" then Outcome(Indeterminate, 0, c)
    else
      var r := Step(c, s[0]);
      if r.verdict != Indeterminate then Outcome(r.verdict, 1, r.config)
      else Shift(Run(r.config, s[1..]), 1)
  }

  /** Parsing resumes: what is read in two pieces is read as if it had come in one. */
  lemma {:induction false} RunAppend(c: Config, p: string, q: string)
    requires Sound(c)
    ensures var o := Run(c, p);
            Run(c, p + q) == if o.verdict == Indeterminate then Shift(Run(o.config, q), |p|) else o
    decreases |p|
  {
    if p == "" {
      assert p + q == q;
    } else {
      assert (p + q)[0] == p[0] && (p + q)[1..] == p[1..] + q;
      var r := Step(c, p[0]);
      if r.verdict == Indeterminate {
        RunAppend(r.config, p[1..], q);
      }
    }
  }

  /** The bytes behind a verdict do not matter. */
  lemma RunIgnoresRest(c: Config, s: string)
    requires Sound(c)
    ensures var o := Run(c, s); Run(c, s[..o.consumed]) == o
  {
    var o := Run(c, s);
    var p := s[..o.consumed];
    assert s == p + s[o.consumed..];
    RunAppend(c, p, s[o.consumed..]);
    if Run(c, p).verdict == Indeterminate {
      if o.consumed == |s| {
        assert p == s;
      }
    }
  }

  /** Input that arrives in pieces: each piece is parsed from where the one before stopped, and
      nothing is parsed behind a verdict. */
  function Feed(c: Config, chunks: seq<string>): (o: Outcome)
    requires Sound(c)
    ensures Sound(o.config)
    decreases |chunks|
  {
    if chunks == [] then Outcome(Indeterminate, 0, c)
    else
      var o := Run(c, chunks[0]);
      if o.verdict != Indeterminate then o else Shift(Feed(o.config, chunks[1..]), o.consumed)
  }

  /** However the input is cut into pieces, the verdict, the byte it falls on and the request
      are those of the whole. */
  lemma {:induction false} FeedIsRun(c: Config, chunks: seq<string>)
    requires Sound(c)
    ensures Feed(c, chunks) == Run(c, Concat(chunks))
    decreases |chunks|
  {
    if chunks != [] {
      RunAppend(c, chunks[0], Concat(chunks[1..]));
      var o := Run(c, chunks[0]);
      if o.verdict == Indeterminate {
        FeedIsRun(o.config, chunks[1..]);
      }
    }
  }

  /** All of `s` is taken in without a verdict, and `d` is the configuration it leads to. */
  predicate Reaches(c: Config, s: string, d: Config) {
    Sound(c) && Run(c, s) == Outcome(Indeterminate, |s|, d)
  }

  lemma ReachesThen(c: Config, p: string, d: Config, q: string, e: Config)
    requires Reaches(c, p, d) && Reaches(d, q, e)
    ensures Reaches(c, p + q, e)
  {
    RunAppend(c, p, q);
  }

  lemma ReachesOne(c: Config, b: char, d: Config)
    requires Sound(c) && Step(c, b) == StepResult(d, Indeterminate)
    ensures Reaches(c, [b], d)
  {
    assert [b][1..] == "";
  }

  // ---- The seven states that loop on a class of bytes

  predicate Looping(state: State) {
    state in {Method, Uri, HttpVersionMajor, HttpVersionMinor, HeaderLws, HeaderName, HeaderValue}
  }

  /** `b` keeps the machine in `state`. */
  predicate Loops(state: State, b: char)
    requires Looping(state)
  {
    match state
    case Method | HeaderName => IsTokenChar(b)
    case Uri => b != ' ' && !IsCtl(b)
    case HttpVersionMajor | HttpVersionMinor => IsDigit(b)
    case HeaderLws => IsBlank(b)
    case _ => !IsCtl(b)
  }

  predicate AllLoop(state: State, u: string)
    requires Looping(state)
  {
    forall i | 0 <= i < |u| :: Loops(state, u[i])
  }

  /** What the request looks like once a looping state has taken in `u`. */
  function Absorb(c: Config, u: string): Config
    requires Sound(c) && Looping(c.state)
  {
    var q := c.req;
    match c.state
    case Method => c.(req := q.(methodName := q.methodName + u))
    case Uri => c.(req := q.(uri := q.uri + u))
    case HttpVersionMajor => c.(req := q.(major := Accumulate(q.major, u)))
    case HttpVersionMinor => c.(req := q.(minor := Accumulate(q.minor, u)))
    case HeaderName => c.(req := q.(headers := ExtendLastName(q.headers, u)))
    case HeaderValue => c.(req := q.(headers := ExtendLastValue(q.headers, u)))
    case _ => c
  }

  lemma AbsorbOne(c: Config, u: string, b: char)
    requires Sound(c) && Looping(c.state) && Loops(c.state, b)
    ensures Sound(Absorb(c, u))
    ensures Step(Absorb(c, u), b) == StepResult(Absorb(c, u + [b]), Indeterminate)
  {
    assert (u + [b])[..|u|] == u;
    match c.state
    case Method => assert (c.req.methodName + u) + [b] == c.req.methodName + (u + [b]);
    case Uri => assert (c.req.uri + u) + [b] == c.req.uri + (u + [b]);
    case HeaderName | HeaderValue =>
      var h := c.req.headers[|c.req.headers| - 1];
      assert (h.name + u) + [b] == h.name + (u + [b]);
      assert (h.value + u) + [b] == h.value + (u + [b]);
    case _ =>
  }

  lemma AbsorbNothing(c: Config)
    requires Sound(c) && Looping(c.state)
    ensures Absorb(c, "") == c
  {
    if c.state == HeaderName || c.state == HeaderValue {
      var h := c.req.headers[|c.req.headers| - 1];
      assert h.name + "" == h.name && h.value + "" == h.value;
      assert c.req.headers == c.req.headers[..|c.req.headers| - 1] + [h];
    }
    assert c.req.methodName + "" == c.req.methodName && c.req.uri + "" == c.req.uri;
  }

  lemma {:induction false} RunLoop(c: Config, u: string)
    requires Sound(c) && Looping(c.state) && AllLoop(c.state, u)
    ensures Reaches(c, u, Absorb(c, u))
    decreases |u|
  {
    if u == "" {
      AbsorbNothing(c);
    } else {
      var front, b := u[..|u| - 1], u[|u| - 1];
      RunLoop(c, front);
      AbsorbOne(c, front, b);
      assert u == front + [b];
      ReachesOne(Absorb(c, front), b, Absorb(c, u));
      ReachesThen(c, front, Absorb(c, front), [b], Absorb(c, u));
    }
  }
}
