/** The request syntax once more, with every character written out: what the parser's character
    classes, separators and line ends are. */
module WrittenOut {
  import opened CharClass
  import opened Decimal
  import opened HttpMessage
  import opened ParserMachine
  import opened RequestGrammar
  import opened ParserLanguage

  // ---- The alphabets

  predicate TokenLetter(c: char) {
    || c in "!#$%&'*+-.^_`|~"
    || c in "0123456789"
    || c in "ABCDEFGHIJKLMNOPQRSTUVWXYZ"
    || c in "abcdefghijklmnopqrstuvwxyz"
  }

  predicate UriLetter(c: char) {
    33 <= c as int <= 126 || 128 <= c as int
  }

  predicate ValueLetter(c: char) {
    32 <= c as int <= 126 || 128 <= c as int
  }

  predicate Blank(c: char) {
    c == ' ' || c == '\t'
  }

  lemma TokenLetters(c: char)
    ensures IsTokenChar(c) <==> TokenLetter(c)
  {
    CapitalLetters(c);
    SmallLetters(c);
    TokenSigns(c);
    DigitsAreTokens(c);
    LettersAreTokens(c);
  }

  lemma CapitalLetters(c: char)
    ensures 'A' <= c <= 'Z' <==> c in "ABCDEFGHIJKLMNOPQRSTUVWXYZ"
  {
  }

  lemma SmallLetters(c: char)
    ensures 'a' <= c <= 'z' <==> c in "abcdefghijklmnopqrstuvwxyz"
  {
  }

  lemma DigitsAreTokens(c: char)
    ensures '0' <= c <= '9' <==> c in "0123456789"
    ensures '0' <= c <= '9' ==> IsTokenChar(c)
  {
  }

  lemma LettersAreTokens(c: char)
    ensures 'A' <= c <= 'Z' || 'a' <= c <= 'z' ==> IsTokenChar(c)
  {
  }

  lemma TokenSigns(c: char)
    ensures IsTokenChar(c) && !('a' <= c <= 'z') && !('A' <= c <= 'Z') && !('0' <= c <= '9')
       <==> c in "!#$%&'*+-.^_`|~"
  {
  }

  predicate Tokens(s: string) {
    forall i | 0 <= i < |s| :: TokenLetter(s[i])
  }

  predicate UriLetters(s: string) {
    forall i | 0 <= i < |s| :: UriLetter(s[i])
  }

  predicate ValueLetters(s: string) {
    forall i | 0 <= i < |s| :: ValueLetter(s[i])
  }

  predicate Digits(s: string) {
    forall i | 0 <= i < |s| :: s[i] in "0123456789"
  }

  predicate Blanks(s: string) {
    forall i | 0 <= i < |s| :: Blank(s[i])
  }

  lemma SameTokens(s: string)
    ensures TokenText(s) <==> Tokens(s)
  {
    forall i | 0 <= i < |s| ensures IsTokenChar(s[i]) <==> TokenLetter(s[i]) {
      TokenLetters(s[i]);
    }
  }

  lemma SameDigits(s: string)
    ensures DigitText(s) <==> Digits(s)
  {
    forall i | 0 <= i < |s| ensures IsDigit(s[i]) <==> s[i] in "0123456789" {
      DigitsAreTokens(s[i]);
    }
  }

  lemma SameCodes(s: string)
    ensures UriText(s) <==> UriLetters(s)
    ensures ValueText(s) <==> ValueLetters(s)
    ensures BlankText(s) <==> Blanks(s)
  {
  }

  // ---- Numbers

  function Digit(c: char): nat {
    match c
    case '1' => 1
    case '2' => 2
    case '3' => 3
    case '4' => 4
    case '5' => 5
    case '6' => 6
    case '7' => 7
    case '8' => 8
    case '9' => 9
    case _ => 0
  }

  /** The number that some digits stand for. */
  function Number(s: string): nat {
    if s == "" then 0 else 10 * Number(s[..|s| - 1]) + Digit(s[|s| - 1])
  }

  lemma {:induction false} NumberIsValue(s: string)
    requires Digits(s)
    ensures NumeralValue(s) == Number(s)
  {
    if s != "" {
      NumberIsValue(s[..|s| - 1]);
      assert s[|s| - 1] in "0123456789";
    }
  }

  /** A printed number is made of digits, does not start with a zero unless it is one, and stands
      for the number. */
  lemma NumeralWrittenOut(n: nat)
    ensures Digits(Numeral(n)) && Number(Numeral(n)) == n
    ensures Numeral(n) != "" && (Numeral(n)[0] == '0' ==> Numeral(n) == "0")
  {
    SameDigits(Numeral(n));
    NumeralRoundTrip(n);
    NumberIsValue(Numeral(n));
  }

  // ---- The texts

  predicate SpelledFold(f: Fold) {
    && f.blanks != "" && Blanks(f.blanks)
    && ValueLetters(f.text) && (f.text != "" ==> !Blank(f.text[0]))
  }

  predicate SpelledField(f: Field) {
    && f.name != "" && Tokens(f.name) && ValueLetters(f.text)
    && forall i | 0 <= i < |f.folds| :: SpelledFold(f.folds[i])
  }

  predicate Spelled(m: Message) {
    && m.methodName != "" && Tokens(m.methodName) && UriLetters(m.uri)
    && m.major != "" && Digits(m.major) && m.minor != "" && Digits(m.minor)
    && forall i | 0 <= i < |m.fields| :: SpelledField(m.fields[i])
  }

  function FoldLines(folds: seq<Fold>): string {
    if folds == [] then "" else folds[0].blanks + folds[0].text + "\r\n" + FoldLines(folds[1..])
  }

  function FieldLines(fields: seq<Field>): string {
    if fields == [] then ""
    else fields[0].name + ": " + fields[0].text + "\r\n" + FoldLines(fields[0].folds) + FieldLines(fields[1..])
  }

  /** The request line and the header lines. */
  function Head(m: Message): string {
    m.methodName + " " + m.uri + " HTTP/" + m.major + "." + m.minor + "\r\n" + FieldLines(m.fields)
  }

  ghost predicate WrittenRequest(w: string) {
    exists m :: Spelled(m) && w == Head(m) + "\r\n"
  }

  function FoldedText(folds: seq<Fold>): string {
    if folds == [] then "" else folds[0].text + FoldedText(folds[1..])
  }

  function HeadersOf(fields: seq<Field>): seq<Header> {
    if fields == [] then []
    else [Header(fields[0].name, fields[0].text + FoldedText(fields[0].folds))] + HeadersOf(fields[1..])
  }

  // ---- They are those of the grammar

  lemma SameFold(f: Fold)
    ensures FoldOk(f) <==> SpelledFold(f)
  {
    SameCodes(f.blanks);
    SameCodes(f.text);
  }

  lemma SameField(f: Field)
    ensures FieldOk(f) <==> SpelledField(f)
  {
    SameTokens(f.name);
    SameCodes(f.text);
    forall i | 0 <= i < |f.folds| ensures FoldOk(f.folds[i]) <==> SpelledFold(f.folds[i]) {
      SameFold(f.folds[i]);
    }
  }

  lemma SameMessage(m: Message)
    ensures MessageOk(m) <==> Spelled(m)
  {
    SameTokens(m.methodName);
    SameCodes(m.uri);
    SameDigits(m.major);
    SameDigits(m.minor);
    forall i | 0 <= i < |m.fields| ensures FieldOk(m.fields[i]) <==> SpelledField(m.fields[i]) {
      SameField(m.fields[i]);
    }
  }

  lemma {:induction false} SameFoldLines(folds: seq<Fold>)
    ensures FoldsText(folds) == FoldLines(folds) && FoldsMeaning(folds) == FoldedText(folds)
  {
    if folds != [] {
      SameFoldLines(folds[1..]);
    }
  }

  lemma {:induction false} SameFieldLines(fields: seq<Field>)
    ensures FieldsText(fields) == FieldLines(fields) && FieldsMeaning(fields) == HeadersOf(fields)
  {
    if fields != [] {
      SameFoldLines(fields[0].folds);
      SameFieldLines(fields[1..]);
    }
  }

  lemma SameText(m: Message)
    ensures RequestLine(m) + FieldsText(m.fields) == Head(m)
    ensures MessageText(m) == Head(m) + "\r\n"
  {
    SameFieldLines(m.fields);
    assert m.uri + " " + "HTTP/" + m.major == m.uri + " HTTP/" + m.major;
    assert RequestLine(m) == m.methodName + " " + m.uri + " HTTP/" + m.major + "." + m.minor + "\r\n";
  }

  lemma SameLanguage(w: string)
    ensures IsRequest(w) <==> WrittenRequest(w)
  {
    if IsRequest(w) {
      var m :| MessageOk(m) && MessageText(m) == w;
      SameMessage(m);
      SameText(m);
    }
    if WrittenRequest(w) {
      var m :| Spelled(m) && w == Head(m) + "\r\n";
      SameMessage(m);
      SameText(m);
    }
  }

  // ---- What the parser makes of them

  /** The verdicts, for the language with its characters written out. */
  lemma VerdictWrittenOut(c: Config, s: string)
    requires Fresh(c)
    ensures forall k | 0 <= k <= |s| :: WrittenRequest(s[..k]) <==> Run(c, s).verdict == Good && Run(c, s).consumed == k
    ensures Run(c, s).verdict == Indeterminate <==> exists t :: t != "" && WrittenRequest(s + t)
  {
    GoodMeansRequest(c, s);
    IndeterminateMeansProperPrefix(c, s);
    forall k | 0 <= k <= |s| ensures IsRequest(s[..k]) <==> WrittenRequest(s[..k]) {
      SameLanguage(s[..k]);
    }
    forall t | t != "" ensures IsRequest(s + t) <==> WrittenRequest(s + t) {
      SameLanguage(s + t);
    }
  }

  /** A request is taken to its end, and this is what is built of it. */
  lemma RequestWrittenOut(c: Config, m: Message, rest: string)
    requires Fresh(c) && Spelled(m)
    ensures var o := Run(c, Head(m) + "\r\n" + rest);
            && o.verdict == Good && o.consumed == |Head(m)| + 2
            && o.config.req == RequestData(m.methodName, m.uri, Number(m.major), Number(m.minor), HeadersOf(m.fields))
  {
    SameMessage(m);
    SameText(m);
    SameFieldLines(m.fields);
    NumberIsValue(m.major);
    NumberIsValue(m.minor);
    TreeAccepted(c, m, rest);
  }

  // ---- Where it stops

  lemma BadBehind(c: Config, p: string, d: Config, b: char, rest: string)
    requires Reaches(c, p, d) && Step(d, b).verdict == Bad
    ensures Run(c, p + [b] + rest).verdict == Bad && Run(c, p + [b] + rest).consumed == |p| + 1
  {
    RunAppend(c, p, [b] + rest);
    assert p + ([b] + rest) == p + [b] + rest && ([b] + rest)[1..] == rest;
  }

  /** A state that loops stops at a character that neither keeps it nor leads out of it. */
  lemma BadBehindLoop(c: Config, p: string, d: Config, u: string, b: char, rest: string)
    requires Reaches(c, p, d) && Sound(d) && Looping(d.state) && AllLoop(d.state, u) && Rejects(d.state, b)
    ensures Run(c, p + u + [b] + rest).verdict == Bad && Run(c, p + u + [b] + rest).consumed == |p + u| + 1
  {
    RunLoop(d, u);
    ReachesThen(c, p, d, u, Absorb(d, u));
    Rejected(Absorb(d, u), b);
    BadBehind(c, p + u, Absorb(d, u), b, rest);
  }

  predicate Rejects(state: State, b: char) {
    match state
    case Method => !TokenLetter(b) && b != ' '
    case Uri => !UriLetter(b) && b != ' '
    case HeaderName => !TokenLetter(b) && b != ':'
    case HeaderValue => !ValueLetter(b) && b != '\r'
    case HeaderLws => !ValueLetter(b) && b != '\r' && !Blank(b)
    case _ => false
  }

  lemma Rejected(d: Config, b: char)
    requires Sound(d) && Rejects(d.state, b)
    ensures Step(d, b).verdict == Bad
  {
    if d.state == Method || d.state == HeaderName {
      TokenLetters(b);
    }
  }

  lemma TokensLoop(u: string)
    requires Tokens(u)
    ensures AllLoop(Method, u) && AllLoop(HeaderName, u)
  {
    SameTokens(u);
  }

  lemma CodesLoop(u: string)
    ensures UriLetters(u) ==> AllLoop(Uri, u)
    ensures ValueLetters(u) ==> AllLoop(HeaderValue, u)
    ensures Blanks(u) ==> AllLoop(HeaderLws, u)
  {
    SameCodes(u);
  }

  lemma ReachesMethodState(c: Config, b: char)
    requires Fresh(c) && TokenLetter(b)
    ensures Reaches(c, [b], Config(Method, c.req.(methodName := [b])))
  {
    TokenLetters(b);
    ReachesOne(c, b, Config(Method, c.req.(methodName := [b])));
  }

  lemma StartRejects(c: Config, b: char)
    requires Fresh(c) && !TokenLetter(b)
    ensures Step(c, b).verdict == Bad
  {
    TokenLetters(b);
  }

  /** In the method, at the first character that is no token character, but for the space behind
      it. */
  lemma BadInMethod(c: Config, s: string, b: char, rest: string)
    requires Fresh(c) && Tokens(s) && !TokenLetter(b) && (s != "" ==> b != ' ')
    ensures Run(c, s + [b] + rest).verdict == Bad && Run(c, s + [b] + rest).consumed == |s| + 1
  {
    if s == "" {
      StartRejects(c, b);
      BadBehind(c, s, c, b, rest);
    } else {
      ReachesMethodState(c, s[0]);
      TokensLoop(s[1..]);
      BadBehindLoop(c, [s[0]], Config(Method, c.req.(methodName := [s[0]])), s[1..], b, rest);
      assert [s[0]] + s[1..] == s;
    }
  }

  /** In the URI, at the first control character. */
  lemma BadInUri(c: Config, name: string, uri: string, b: char, rest: string)
    requires Fresh(c) && name != "" && Tokens(name) && UriLetters(uri) && !UriLetter(b) && b != ' '
    ensures var s := (name + " ") + uri;
            Run(c, s + [b] + rest).verdict == Bad && Run(c, s + [b] + rest).consumed == |s| + 1
  {
    SameTokens(name);
    ReachesMethod(c, name);
    CodesLoop(uri);
    BadBehindLoop(c, name + " ", Config(Uri, c.req.(methodName := name)), uri, b, rest);
  }

  /** The parser at the start of a line behind these headers. */
  function AtLineStart(m: Message): Config {
    Config(HeaderLineStart,
           RequestData(m.methodName, m.uri, Number(m.major), Number(m.minor), HeadersOf(m.fields)))
  }

  lemma ReachesHead(c: Config, m: Message)
    requires Fresh(c) && Spelled(m)
    ensures Reaches(c, Head(m), AtLineStart(m)) && Sound(AtLineStart(m))
  {
    SameMessage(m);
    SameText(m);
    SameFieldLines(m.fields);
    NumberIsValue(m.major);
    NumberIsValue(m.minor);
    ReachesRequestLine(c, m);
    var d := AtLineStart(m.(fields := []));
    ReachesFields(d, m.fields);
    assert [] + HeadersOf(m.fields) == HeadersOf(m.fields);
    ReachesThen(c, RequestLine(m), d, FieldsText(m.fields), AtLineStart(m));
  }

  lemma {:induction false} AsManyHeaders(fields: seq<Field>)
    ensures HeadersOf(fields) == [] <==> fields == []
  {
  }

  lemma LineStartRejects(d: Config, b: char)
    requires Sound(d) && d.state == HeaderLineStart
    requires !TokenLetter(b) && b != '\r' && (d.req.headers != [] ==> !Blank(b))
    ensures Step(d, b).verdict == Bad
  {
    TokenLetters(b);
  }

  /** At the start of a line, at a character that starts neither a name, nor the end, nor, behind a
      header, a continuation. */
  lemma BadAtLineStart(c: Config, m: Message, b: char, rest: string)
    requires Fresh(c) && Spelled(m) && !TokenLetter(b) && b != '\r' && (m.fields != [] ==> !Blank(b))
    ensures var s := Head(m);
            Run(c, s + [b] + rest).verdict == Bad && Run(c, s + [b] + rest).consumed == |s| + 1
  {
    ReachesHead(c, m);
    AsManyHeaders(m.fields);
    LineStartRejects(AtLineStart(m), b);
    BadBehind(c, Head(m), AtLineStart(m), b, rest);
  }

  lemma FirstAndRest(p: string, s: string)
    requires s != ""
    ensures p + [s[0]] + s[1..] == p + s
  {
  }

  lemma ReachesNameState(d: Config, b: char) returns (e: Config)
    requires Sound(d) && d.state == HeaderLineStart && TokenLetter(b)
    ensures Reaches(d, [b], e) && Sound(e) && e.state == HeaderName
  {
    TokenLetters(b);
    e := Config(HeaderName, d.req.(headers := d.req.headers + [Header([b], "")]));
    ReachesOne(d, b, e);
  }

  /** In a name, at the first character that is no token character, but for the colon. */
  lemma BadInName(c: Config, m: Message, name: string, b: char, rest: string)
    requires Fresh(c) && Spelled(m) && name != "" && Tokens(name) && !TokenLetter(b) && b != ':'
    ensures var s := Head(m) + name;
            Run(c, s + [b] + rest).verdict == Bad && Run(c, s + [b] + rest).consumed == |s| + 1
  {
    ReachesHead(c, m);
    var e := ReachesNameState(AtLineStart(m), name[0]);
    ReachesThen(c, Head(m), AtLineStart(m), [name[0]], e);
    TokensLoop(name[1..]);
    FirstAndRest(Head(m), name);
    BadBehindLoop(c, Head(m) + [name[0]], e, name[1..], b, rest);
  }

  lemma ReachesValueState(d: Config, name: string) returns (e: Config)
    requires Sound(d) && d.state == HeaderLineStart && name != "" && Tokens(name)
    ensures Reaches(d, name + ": ", e) && Sound(e) && e.state == HeaderValue
  {
    SameTokens(name);
    e := Config(HeaderValue, d.req.(headers := d.req.headers + [Header(name, "")]));
    ReachesName(d, name);
  }

  /** In a value, at the first control character, but for the carriage return. */
  lemma BadInValue(c: Config, m: Message, name: string, value: string, b: char, rest: string)
    requires Fresh(c) && Spelled(m) && name != "" && Tokens(name) && ValueLetters(value)
    requires !ValueLetter(b) && b != '\r'
    ensures var s := Head(m) + (name + ": ") + value;
            Run(c, s + [b] + rest).verdict == Bad && Run(c, s + [b] + rest).consumed == |s| + 1
  {
    ReachesHead(c, m);
    var e := ReachesValueState(AtLineStart(m), name);
    ReachesThen(c, Head(m), AtLineStart(m), name + ": ", e);
    CodesLoop(value);
    BadBehindLoop(c, Head(m) + (name + ": "), e, value, b, rest);
  }

  lemma ReachesBlankState(d: Config, b: char) returns (e: Config)
    requires Sound(d) && d.state == HeaderLineStart && d.req.headers != [] && Blank(b)
    ensures Reaches(d, [b], e) && Sound(e) && e.state == HeaderLws
  {
    e := d.(state := HeaderLws);
    ReachesOne(d, b, e);
  }

  /** In a continuation line: behind its blanks, at a control character other than the carriage
      return. */
  lemma BadBehindBlanks(c: Config, m: Message, blanks: string, b: char, rest: string)
    requires Fresh(c) && Spelled(m) && m.fields != [] && blanks != "" && Blanks(blanks)
    requires !ValueLetter(b) && b != '\r' && !Blank(b)
    ensures var s := Head(m) + blanks;
            Run(c, s + [b] + rest).verdict == Bad && Run(c, s + [b] + rest).consumed == |s| + 1
  {
    ReachesHead(c, m);
    AsManyHeaders(m.fields);
    var e := ReachesBlankState(AtLineStart(m), blanks[0]);
    ReachesThen(c, Head(m), AtLineStart(m), [blanks[0]], e);
    CodesLoop(blanks[1..]);
    FirstAndRest(Head(m), blanks);
    BadBehindLoop(c, Head(m) + [blanks[0]], e, blanks[1..], b, rest);
  }
}
