/** The parser recognises exactly the grammar, and builds exactly its meaning. */
module ParserLanguage {
  import opened CharClass
  import opened Decimal
  import opened HttpMessage
  import opened ParserMachine
  import opened RequestGrammar

  // ---- From trees to runs

  /** From a value to the start of the next header line. */
  lemma ReachesLineEnd(c: Config, text: string)
    requires Sound(c) && c.state == HeaderValue && ValueText(text)
    ensures Reaches(c, text + CRLF, Config(HeaderLineStart, c.req.(headers := ExtendLastValue(c.req.headers, text))))
  {
    var d := Absorb(c, text);
    RunLoop(c, text);
    ReachesCrlf(d);
    ReachesThen(c, text, d, CRLF, d.(state := HeaderLineStart));
  }

  lemma ReachesCrlf(c: Config)
    requires Sound(c) && c.state in {HeaderValue, HeaderLws, HttpVersionMinor}
    ensures Reaches(c, CRLF, c.(state := HeaderLineStart))
  {
    var d := c.(state := if c.state == HttpVersionMinor then ExpectingNewline1 else ExpectingNewline2);
    var e := c.(state := HeaderLineStart);
    ReachesOne(c, '\r', d);
    ReachesOne(d, '\n', e);
    ReachesThen(c, "\r", d, "\n", e);
    assert "\r" + "\n" == CRLF;
  }

  lemma ReachesBlanks(c: Config, blanks: string)
    requires Sound(c) && c.state == HeaderLineStart && c.req.headers != [] && blanks != "" && BlankText(blanks)
    ensures Reaches(c, blanks, c.(state := HeaderLws))
  {
    var d := c.(state := HeaderLws);
    ReachesOne(c, blanks[0], d);
    RunLoop(d, blanks[1..]);
    ReachesThen(c, [blanks[0]], d, blanks[1..], d);
    assert [blanks[0]] + blanks[1..] == blanks;
  }

  /** One continuation line extends the last value by its text. */
  lemma ReachesFold(c: Config, f: Fold)
    requires Sound(c) && c.state == HeaderLineStart && c.req.headers != [] && FoldOk(f)
    ensures Reaches(c, f.blanks + f.text + CRLF,
                    c.(req := c.req.(headers := ExtendLastValue(c.req.headers, f.text))))
  {
    var d := c.(state := HeaderLws);
    ReachesBlanks(c, f.blanks);
    if f.text == "" {
      ReachesCrlf(d);
      ReachesThen(c, f.blanks, d, CRLF, c);
      AbsorbNothing(c.(state := HeaderValue));
      assert f.blanks + f.text == f.blanks;
    } else {
      ReachesFoldText(d, f.text);
      ReachesThen(c, f.blanks, d, f.text + CRLF,
                  c.(req := c.req.(headers := ExtendLastValue(c.req.headers, f.text))));
      assert f.blanks + (f.text + CRLF) == f.blanks + f.text + CRLF;
    }
  }

  lemma ReachesFoldText(c: Config, text: string)
    requires Sound(c) && c.state == HeaderLws && ValueText(text) && text != "" && !IsBlank(text[0])
    ensures Reaches(c, text + CRLF, Config(HeaderLineStart, c.req.(headers := ExtendLastValue(c.req.headers, text))))
  {
    var d := Config(HeaderValue, c.req.(headers := ExtendLastValue(c.req.headers, text[..1])));
    assert text[..1] == [text[0]];
    assert text[..1] + text[1..] == text;
    ReachesOne(c, text[0], d);
    ReachesLineEnd(d, text[1..]);
    ExtendTwice(c.req.headers, text[..1], text[1..]);
    ReachesThen(c, text[..1], d, text[1..] + CRLF,
                Config(HeaderLineStart, c.req.(headers := ExtendLastValue(c.req.headers, text))));
    assert text[..1] + (text[1..] + CRLF) == text + CRLF;
  }

  lemma ExtendTwice(headers: seq<Header>, s: string, t: string)
    requires headers != []
    ensures ExtendLastValue(ExtendLastValue(headers, s), t) == ExtendLastValue(headers, s + t)
  {
    var v := headers[|headers| - 1].value;
    assert (v + s) + t == v + (s + t);
  }

  lemma {:induction false} ReachesFolds(c: Config, folds: seq<Fold>)
    requires Sound(c) && c.state == HeaderLineStart && c.req.headers != [] && FoldsOk(folds)
    ensures Reaches(c, FoldsText(folds),
                    c.(req := c.req.(headers := ExtendLastValue(c.req.headers, FoldsMeaning(folds)))))
    decreases |folds|
  {
    if folds == [] {
      AbsorbNothing(c.(state := HeaderValue));
    } else {
      var f := folds[0];
      ReachesFold(c, f);
      var d := c.(req := c.req.(headers := ExtendLastValue(c.req.headers, f.text)));
      ReachesFolds(d, folds[1..]);
      var e := d.(req := d.req.(headers := ExtendLastValue(d.req.headers, FoldsMeaning(folds[1..]))));
      ReachesThen(c, f.blanks + f.text + CRLF, d, FoldsText(folds[1..]), e);
      ExtendTwice(c.req.headers, f.text, FoldsMeaning(folds[1..]));
    }
  }

  /** A field name and its colon open a header with an empty value. */
  lemma ReachesName(c: Config, name: string)
    requires Sound(c) && c.state == HeaderLineStart && name != "" && TokenText(name)
    ensures Reaches(c, name + ": ", Config(HeaderValue, c.req.(headers := c.req.headers + [Header(name, "")])))
  {
    var hs := c.req.headers;
    var c1 := Config(HeaderName, c.req.(headers := hs + [Header(name[..1], "")]));
    var c2 := Config(HeaderName, c.req.(headers := hs + [Header(name, "")]));
    assert name[..1] == [name[0]] && name[..1] + name[1..] == name;
    ReachesOne(c, name[0], c1);
    RunLoop(c1, name[1..]);
    assert Absorb(c1, name[1..]) == c2;
    ReachesThen(c, name[..1], c1, name[1..], c2);
    ReachesColon(c2);
    ReachesThen(c, name, c2, ": ", c2.(state := HeaderValue));
  }

  lemma ReachesColon(c: Config)
    requires Sound(c) && c.state == HeaderName
    ensures Reaches(c, ": ", c.(state := HeaderValue))
  {
    var d, e := c.(state := SpaceBeforeHeaderValue), c.(state := HeaderValue);
    ReachesOne(c, ':', d);
    ReachesOne(d, ' ', e);
    ReachesThen(c, ":", d, " ", e);
    assert ":" + " " == ": ";
  }

  /** The first line of a field opens a header. */
  lemma ReachesFirstLine(c: Config, name: string, text: string)
    requires Sound(c) && c.state == HeaderLineStart
    requires name != "" && TokenText(name) && ValueText(text)
    ensures Reaches(c, name + ": " + text + CRLF,
                    c.(req := c.req.(headers := c.req.headers + [Header(name, text)])))
  {
    var hs := c.req.headers;
    var d := Config(HeaderValue, c.req.(headers := hs + [Header(name, "")]));
    var e := c.(req := c.req.(headers := hs + [Header(name, text)]));
    ReachesName(c, name);
    ReachesLineEnd(d, text);
    assert "" + text == text;
    assert ExtendLastValue(d.req.headers, text) == e.req.headers;
    ReachesThen(c, name + ": ", d, text + CRLF, e);
    assert (name + ": ") + (text + CRLF) == name + ": " + text + CRLF;
  }

  lemma ReachesField(c: Config, f: Field)
    requires Sound(c) && c.state == HeaderLineStart && FieldOk(f)
    ensures Reaches(c, FieldText(f), c.(req := c.req.(headers := c.req.headers + [FieldMeaning(f)])))
  {
    ReachesFirstLine(c, f.name, f.text);
    var hs := c.req.headers;
    var d := c.(req := c.req.(headers := hs + [Header(f.name, f.text)]));
    ReachesFolds(d, f.folds);
    assert ExtendLastValue(d.req.headers, FoldsMeaning(f.folds)) == hs + [FieldMeaning(f)];
    ReachesThen(c, f.name + ": " + f.text + CRLF, d, FoldsText(f.folds),
                c.(req := c.req.(headers := hs + [FieldMeaning(f)])));
  }

  lemma FieldsMeaningBehind(hs: seq<Header>, fields: seq<Field>)
    requires fields != []
    ensures hs + [FieldMeaning(fields[0])] + FieldsMeaning(fields[1..]) == hs + FieldsMeaning(fields)
  {
  }

  lemma {:induction false} ReachesFields(c: Config, fields: seq<Field>)
    requires Sound(c) && c.state == HeaderLineStart && FieldsOk(fields)
    ensures Reaches(c, FieldsText(fields), c.(req := c.req.(headers := c.req.headers + FieldsMeaning(fields))))
    decreases |fields|
  {
    var hs := c.req.headers;
    if fields == [] {
      assert hs + [] == hs;
    } else {
      ReachesField(c, fields[0]);
      var d := c.(req := c.req.(headers := hs + [FieldMeaning(fields[0])]));
      ReachesFields(d, fields[1..]);
      FieldsMeaningBehind(hs, fields);
      ReachesThen(c, FieldText(fields[0]), d, FieldsText(fields[1..]),
                  c.(req := c.req.(headers := hs + FieldsMeaning(fields))));
    }
  }

  /** A complete header section is good at its last byte, whatever follows it. */
  lemma HeaderSectionAccepted(c: Config, fields: seq<Field>, rest: string)
    requires Sound(c) && c.state == HeaderLineStart && FieldsOk(fields)
    ensures Run(c, FieldsText(fields) + CRLF + rest)
         == Outcome(Good, |FieldsText(fields)| + 2,
                    Config(ExpectingNewline3, c.req.(headers := c.req.headers + FieldsMeaning(fields))))
  {
    ReachesFields(c, fields);
    var d := c.(req := c.req.(headers := c.req.headers + FieldsMeaning(fields)));
    var tail := CRLF + rest;
    assert FieldsText(fields) + CRLF + rest == FieldsText(fields) + tail;
    RunAppend(c, FieldsText(fields), tail);
    assert tail[0] == '\r' && tail[1..][0] == '\n';
    var e := d.(state := ExpectingNewline3);
    assert Run(d, tail) == Shift(Run(e, tail[1..]), 1);
    assert Run(e, tail[1..]) == Outcome(Good, 1, e);
  }

  lemma ReachesVersionDigits(c: Config)
    requires Sound(c) && c.state == HttpVersionH
    ensures Reaches(c, "HTTP/", Config(HttpVersionMajorStart, c.req.(major := 0, minor := 0)))
  {
    var c1, c2, c3, c4 := c.(state := HttpVersionT1), c.(state := HttpVersionT2), c.(state := HttpVersionP),
          c.(state := HttpVersionSlash);
    var c5 := Config(HttpVersionMajorStart, c.req.(major := 0, minor := 0));
    ReachesOne(c, 'H', c1);
    ReachesOne(c1, 'T', c2);
    ReachesOne(c2, 'T', c3);
    ReachesOne(c3, 'P', c4);
    ReachesOne(c4, '/', c5);
    ReachesThen(c, "H", c1, "T", c2);
    ReachesThen(c, "H" + "T", c2, "T", c3);
    ReachesThen(c, "H" + "T" + "T", c3, "P", c4);
    ReachesThen(c, "H" + "T" + "T" + "P", c4, "/", c5);
    assert "H" + "T" + "T" + "P" + "/" == "HTTP/";
  }

  lemma ReachesMajor(c: Config, digits: string)
    requires Sound(c) && c.state == HttpVersionMajorStart && c.req.major == 0
    requires digits != "" && DigitText(digits)
    ensures Reaches(c, digits + ".", Config(HttpVersionMinorStart, c.req.(major := NumeralValue(digits))))
  {
    var d := Config(HttpVersionMajor, c.req.(major := DigitValue(digits[0])));
    var e := Config(HttpVersionMajor, c.req.(major := NumeralValue(digits)));
    ReachesOne(c, digits[0], d);
    RunLoop(d, digits[1..]);
    AccumulateFirst(0, digits);
    ReachesThen(c, [digits[0]], d, digits[1..], e);
    assert [digits[0]] + digits[1..] == digits;
    ReachesOne(e, '.', e.(state := HttpVersionMinorStart));
    ReachesThen(c, digits, e, ".", e.(state := HttpVersionMinorStart));
  }

  lemma ReachesMinor(c: Config, digits: string)
    requires Sound(c) && c.state == HttpVersionMinorStart && c.req.minor == 0
    requires digits != "" && DigitText(digits)
    ensures Reaches(c, digits + CRLF, Config(HeaderLineStart, c.req.(minor := NumeralValue(digits))))
  {
    var d := Config(HttpVersionMinor, c.req.(minor := DigitValue(digits[0])));
    var e := Config(HttpVersionMinor, c.req.(minor := NumeralValue(digits)));
    ReachesOne(c, digits[0], d);
    RunLoop(d, digits[1..]);
    AccumulateFirst(0, digits);
    ReachesThen(c, [digits[0]], d, digits[1..], e);
    assert [digits[0]] + digits[1..] == digits;
    ReachesCrlf(e);
    ReachesThen(c, digits, e, CRLF, e.(state := HeaderLineStart));
  }

  lemma ReachesMethod(c: Config, name: string)
    requires Fresh(c) && name != "" && TokenText(name)
    ensures Reaches(c, name + " ", Config(Uri, c.req.(methodName := name)))
  {
    var d := Config(Method, c.req.(methodName := [name[0]]));
    var e := Config(Method, c.req.(methodName := name));
    assert "" + [name[0]] == [name[0]];
    ReachesOne(c, name[0], d);
    RunLoop(d, name[1..]);
    assert [name[0]] + name[1..] == name;
    ReachesThen(c, [name[0]], d, name[1..], e);
    ReachesOne(e, ' ', e.(state := Uri));
    ReachesThen(c, name, e, " ", e.(state := Uri));
  }

  lemma ReachesUri(c: Config, uri: string)
    requires Sound(c) && c.state == Uri && c.req.uri == "" && UriText(uri)
    ensures Reaches(c, uri + " ", Config(HttpVersionH, c.req.(uri := uri)))
  {
    var d := c.(req := c.req.(uri := uri));
    assert "" + uri == uri;
    RunLoop(c, uri);
    ReachesOne(d, ' ', d.(state := HttpVersionH));
    ReachesThen(c, uri, d, " ", d.(state := HttpVersionH));
  }

  lemma ReachesVersion(c: Config, major: string, minor: string)
    requires Sound(c) && c.state == HttpVersionH
    requires major != "" && DigitText(major) && minor != "" && DigitText(minor)
    ensures Reaches(c, "HTTP/" + (major + ".") + (minor + CRLF),
                    Config(HeaderLineStart, c.req.(major := NumeralValue(major), minor := NumeralValue(minor))))
  {
    var d := Config(HttpVersionMajorStart, c.req.(major := 0, minor := 0));
    var e := Config(HttpVersionMinorStart, d.req.(major := NumeralValue(major)));
    ReachesVersionDigits(c);
    ReachesMajor(d, major);
    ReachesMinor(e, minor);
    ReachesThen(c, "HTTP/", d, major + ".", e);
    ReachesThen(c, "HTTP/" + (major + "."), e, minor + CRLF,
                Config(HeaderLineStart, e.req.(minor := NumeralValue(minor))));
  }

  lemma ReachesRequestLine(c: Config, m: Message)
    requires Fresh(c) && MessageOk(m)
    ensures Reaches(c, RequestLine(m),
                    Config(HeaderLineStart,
                           RequestData(m.methodName, m.uri, NumeralValue(m.major), NumeralValue(m.minor), [])))
  {
    var d := Config(Uri, c.req.(methodName := m.methodName));
    var e := Config(HttpVersionH, d.req.(uri := m.uri));
    var f := Config(HeaderLineStart,
                    RequestData(m.methodName, m.uri, NumeralValue(m.major), NumeralValue(m.minor), []));
    ReachesMethod(c, m.methodName);
    ReachesUri(d, m.uri);
    ReachesVersion(e, m.major, m.minor);
    ReachesThen(c, m.methodName + " ", d, m.uri + " ", e);
    ReachesThen(c, (m.methodName + " ") + (m.uri + " "), e, "HTTP/" + (m.major + ".") + (m.minor + CRLF), f);
    RequestLineParts(m);
  }

  lemma RequestLineParts(m: Message)
    ensures (m.methodName + " ") + (m.uri + " ") + ("HTTP/" + (m.major + ".") + (m.minor + CRLF)) == RequestLine(m)
  {
    assert RequestLine(m) == m.methodName + " " + (m.uri + " ") + "HTTP/" + (m.major + ".") + (m.minor + CRLF);
  }

  /** Every text of the grammar is accepted, exactly at its end and whatever follows, and the
      request built is the meaning of the tree. */
  lemma TreeAccepted(c: Config, m: Message, rest: string)
    requires Fresh(c) && MessageOk(m)
    ensures Run(c, MessageText(m) + rest)
         == Outcome(Good, |MessageText(m)|, Config(ExpectingNewline3, Meaning(m)))
  {
    ReachesRequestLine(c, m);
    var d := Config(HeaderLineStart,
                    RequestData(m.methodName, m.uri, NumeralValue(m.major), NumeralValue(m.minor), []));
    var section := FieldsText(m.fields) + CRLF;
    HeaderSectionAccepted(d, m.fields, rest);
    assert [] + FieldsMeaning(m.fields) == FieldsMeaning(m.fields);
    RunAppend(c, RequestLine(m), section + rest);
    MessageThen(m, rest);
  }

  lemma MessageThen(m: Message, rest: string)
    ensures MessageText(m) + rest == RequestLine(m) + (FieldsText(m.fields) + CRLF + rest)
    ensures |MessageText(m)| == |RequestLine(m)| + |FieldsText(m.fields)| + 2
  {
    var line, section := RequestLine(m), FieldsText(m.fields) + CRLF;
    assert (line + section) + rest == line + (section + rest);
  }

  // ---- From runs to trees

  /** The longest prefix of `s` that keeps the machine in `state`. */
  function LoopPrefix(state: State, s: string): (u: string)
    requires Looping(state)
    ensures u <= s && AllLoop(state, u) && (|u| < |s| ==> !Loops(state, s[|u|]))
  {
    if s == "" || !Loops(state, s[0]) then "" else [s[0]] + LoopPrefix(state, s[1..])
  }

  /** A run that is good, seen from a looping state: the loop is left by a byte outside it. */
  lemma AcceptedLoop(c: Config, s: string) returns (u: string, t: string)
    requires Sound(c) && Looping(c.state) && Run(c, s).verdict == Good
    ensures s == u + t && t != "" && AllLoop(c.state, u) && !Loops(c.state, t[0])
    ensures Sound(Absorb(c, u)) && Run(c, s) == Shift(Run(Absorb(c, u), t), |u|)
  {
    u := LoopPrefix(c.state, s);
    t := s[|u|..];
    RunLoop(c, u);
    RunAppend(c, u, t);
    assert s == u + t;
  }

  /** A run that is good and whose next byte can only be `b`. */
  lemma AcceptedByte(c: Config, s: string, b: char, d: Config) returns (t: string)
    requires Sound(c) && Run(c, s).verdict == Good && Step(c, b) == StepResult(d, Indeterminate)
    requires s != "" && s[0] != b ==> Step(c, s[0]).verdict == Bad
    ensures s == [b] + t && Run(c, s) == Shift(Run(d, t), 1)
  {
    t := s[1..];
    assert s == [s[0]] + t;
  }

  /** A good run from inside a value: the value ends with a line break. */
  lemma AcceptedValue(c: Config, s: string) returns (text: string, t: string, d: Config)
    requires Sound(c) && c.state == HeaderValue && Run(c, s).verdict == Good
    ensures s == text + CRLF + t && ValueText(text)
    ensures Sound(d) && d.state == HeaderLineStart && d.req.headers != []
    ensures Run(c, s) == Shift(Run(d, t), |text| + 2)
  {
    var t1;
    text, t1 := AcceptedLoop(c, s);
    var e := Absorb(c, text);
    t, d := AcceptedCrlf(e, t1);
    assert s == text + (CRLF + t);
  }

  lemma AcceptedCrlf(c: Config, s: string) returns (t: string, d: Config)
    requires Sound(c) && c.state in {HeaderValue, HeaderLws, HttpVersionMinor} && s != "" && !Loops(c.state, s[0])
    requires c.state == HeaderLws ==> s[0] == '\r'
    requires Run(c, s).verdict == Good
    ensures d == c.(state := HeaderLineStart)
    ensures s == CRLF + t && Run(c, s) == Shift(Run(d, t), 2)
  {
    var e := c.(state := if c.state == HttpVersionMinor then ExpectingNewline1 else ExpectingNewline2);
    d := c.(state := HeaderLineStart);
    assert s[0] == '\r' && s == ['\r'] + s[1..];
    t := AcceptedByte(e, s[1..], '\n', d);
    assert s == ['\r'] + (['\n'] + t);
    assert ['\r'] + ['\n'] == CRLF;
  }

  /** A header section seen from inside: continuation lines of the header before, then fields,
      then the empty line. */
  function SectionText(folds: seq<Fold>, fields: seq<Field>): string {
    FoldsText(folds) + (FieldsText(fields) + CRLF)
  }

  lemma SectionAfterFold(f: Fold, folds: seq<Fold>, fields: seq<Field>)
    ensures SectionText([f] + folds, fields) == f.blanks + f.text + CRLF + SectionText(folds, fields)
  {
    assert ([f] + folds)[1..] == folds;
  }

  lemma SectionAfterFirstLine(name: string, text: string, folds: seq<Fold>, fields: seq<Field>)
    ensures SectionText([], [Field(name, text, folds)] + fields)
         == name + ": " + text + CRLF + SectionText(folds, fields)
  {
    assert ([Field(name, text, folds)] + fields)[1..] == fields;
  }

  lemma ExtendPrefix(line: string, p: string, t: string)
    requires p <= t
    ensures line + p <= line + t
  {
    assert t == p + t[|p|..];
    assert line + t == (line + p) + t[|p|..];
  }

  /** A good run from the start of a line has such a section as its text. */
  lemma {:induction false} AcceptedHeaderSection(c: Config, s: string) returns (folds: seq<Fold>, fields: seq<Field>)
    requires Sound(c) && c.state == HeaderLineStart && Run(c, s).verdict == Good
    ensures FoldsOk(folds) && FieldsOk(fields) && (c.req.headers == [] ==> folds == [])
    ensures SectionText(folds, fields) <= s && Run(c, s).consumed == |SectionText(folds, fields)|
    decreases |s|
  {
    var b := s[0];
    assert s == [b] + s[1..];
    if b == '\r' {
      folds, fields := [], [];
      AcceptedEnd(c.(state := ExpectingNewline3), s[1..]);
      assert SectionText(folds, fields) == CRLF;
    } else if c.req.headers != [] && IsBlank(b) {
      var f, t, d := AcceptedFold(c.(state := HeaderLws), b, s[1..]);
      folds, fields := AcceptedHeaderSection(d, t);
      ExtendPrefix(f.blanks + f.text + CRLF, SectionText(folds, fields), t);
      SectionAfterFold(f, folds, fields);
      folds := [f] + folds;
    } else {
      var name, text, t, d := AcceptedField(Step(c, b).config, b, s[1..]);
      folds, fields := AcceptedHeaderSection(d, t);
      ExtendPrefix(name + ": " + text + CRLF, SectionText(folds, fields), t);
      SectionAfterFirstLine(name, text, folds, fields);
      folds, fields := [], [Field(name, text, folds)] + fields;
    }
  }

  lemma AcceptedEnd(c: Config, s: string)
    requires Sound(c) && c.state == ExpectingNewline3 && Run(c, s).verdict == Good
    ensures "\n" <= s && Run(c, s) == Outcome(Good, 1, c)
  {
    assert s == [s[0]] + s[1..];
  }

  lemma AcceptedFold(c: Config, b: char, s: string) returns (f: Fold, t: string, d: Config)
    requires Sound(c) && c.state == HeaderLws && IsBlank(b) && Run(c, s).verdict == Good
    ensures FoldOk(f) && [b] + s == f.blanks + f.text + CRLF + t
    ensures Sound(d) && d.state == HeaderLineStart && d.req.headers != []
    ensures Run(c, s) == Shift(Run(d, t), |f.blanks + f.text| + 1)
  {
    var u, t1 := AcceptedLoop(c, s);
    var text;
    if t1[0] == '\r' {
      text := "";
      t, d := AcceptedCrlf(c, t1);
    } else {
      text, t, d := AcceptedFoldText(c, t1);
    }
    f := Fold([b] + u, text);
    FoldLine(b, u, text, t);
  }

  lemma FoldLine(b: char, u: string, text: string, t: string)
    ensures [b] + (u + (text + CRLF + t)) == ([b] + u) + text + CRLF + t
  {
    assert (u + text) + (CRLF + t) == u + (text + CRLF + t);
  }

  lemma AcceptedFoldText(c: Config, s: string) returns (text: string, t: string, d: Config)
    requires Sound(c) && c.state == HeaderLws && Run(c, s).verdict == Good
    requires s != "" && !IsBlank(s[0]) && s[0] != '\r'
    ensures text != "" && !IsBlank(text[0]) && ValueText(text) && s == text + CRLF + t
    ensures Sound(d) && d.state == HeaderLineStart && d.req.headers != []
    ensures Run(c, s) == Shift(Run(d, t), |text| + 2)
  {
    var rest, t1, d1 := AcceptedValue(Step(c, s[0]).config, s[1..]);
    text, t, d := [s[0]] + rest, t1, d1;
    assert s == [s[0]] + s[1..];
    assert [s[0]] + (rest + CRLF + t) == ([s[0]] + rest) + CRLF + t;
  }

  lemma AcceptedColon(c: Config, s: string) returns (t: string)
    requires Sound(c) && c.state == HeaderName && Run(c, s).verdict == Good
    requires s != "" && !Loops(c.state, s[0])
    ensures s == ": " + t && Run(c, s) == Shift(Run(c.(state := HeaderValue), t), 2)
  {
    var d := c.(state := SpaceBeforeHeaderValue);
    var t1 := AcceptedByte(c, s, ':', d);
    t := AcceptedByte(d, t1, ' ', c.(state := HeaderValue));
    assert ": " == [':'] + [' '];
    assert s == [':'] + ([' '] + t);
  }

  lemma AcceptedName(c: Config, s: string) returns (u: string, t: string, d: Config)
    requires Sound(c) && c.state == HeaderName && Run(c, s).verdict == Good
    ensures TokenText(u) && s == u + (": " + t)
    ensures Sound(d) && d.state == HeaderValue && Run(c, s) == Shift(Run(d, t), |u| + 2)
  {
    var t1;
    u, t1 := AcceptedLoop(c, s);
    d := Absorb(c, u).(state := HeaderValue);
    t := AcceptedColon(Absorb(c, u), t1);
  }

  lemma AcceptedField(c: Config, b: char, s: string) returns (name: string, text: string, t: string, d: Config)
    requires Sound(c) && c.state == HeaderName && IsTokenChar(b) && Run(c, s).verdict == Good
    ensures name != "" && TokenText(name) && ValueText(text) && [b] + s == name + ": " + text + CRLF + t
    ensures Sound(d) && d.state == HeaderLineStart && d.req.headers != []
    ensures Run(c, s) == Shift(Run(d, t), |name + ": " + text| + 1)
  {
    var u, t1, d1 := AcceptedName(c, s);
    text, t, d := AcceptedValue(d1, t1);
    name := [b] + u;
    FirstLine(b, u, text, t);
  }

  lemma FirstLine(b: char, u: string, text: string, t: string)
    ensures [b] + (u + (": " + (text + CRLF + t))) == ([b] + u) + ": " + text + CRLF + t
    ensures |([b] + u) + ": " + text| == |u| + |text| + 3
  {
    assert text + CRLF + t == text + (CRLF + t);
    assert ([b] + u) + ": " + text + (CRLF + t) == [b] + (u + (": " + (text + (CRLF + t))));
  }

  lemma AcceptedMethod(c: Config, s: string) returns (name: string, t: string, d: Config)
    requires Fresh(c) && Run(c, s).verdict == Good
    ensures name != "" && TokenText(name) && s == name + " " + t
    ensures d.state == Uri && d.req.headers == [] && Run(c, s) == Shift(Run(d, t), |name| + 1)
  {
    var c1 := Step(c, s[0]).config;
    var u, t1 := AcceptedLoop(c1, s[1..]);
    d := Absorb(c1, u).(state := Uri);
    t := AcceptedByte(Absorb(c1, u), t1, ' ', d);
    name := [s[0]] + u;
    assert s == [s[0]] + s[1..];
  }

  lemma AcceptedUri(c: Config, s: string) returns (uri: string, t: string, d: Config)
    requires Sound(c) && c.state == Uri && c.req.headers == [] && Run(c, s).verdict == Good
    ensures UriText(uri) && s == uri + " " + t
    ensures d.state == HttpVersionH && d.req.headers == [] && Run(c, s) == Shift(Run(d, t), |uri| + 1)
  {
    var t1;
    uri, t1 := AcceptedLoop(c, s);
    d := Absorb(c, uri).(state := HttpVersionH);
    t := AcceptedByte(Absorb(c, uri), t1, ' ', d);
  }

  lemma AcceptedTwoBytes(c: Config, s: string, x: char, d: Config, y: char, e: Config) returns (t: string)
    requires Sound(c) && Sound(d) && Run(c, s).verdict == Good
    requires Step(c, x) == StepResult(d, Indeterminate) && Step(d, y) == StepResult(e, Indeterminate)
    requires forall z | z != x :: Step(c, z).verdict == Bad
    requires forall z | z != y :: Step(d, z).verdict == Bad
    ensures s == [x, y] + t && Run(c, s) == Shift(Run(e, t), 2)
  {
    var t1 := AcceptedByte(c, s, x, d);
    t := AcceptedByte(d, t1, y, e);
    assert [x] + ([y] + t) == [x, y] + t;
  }

  lemma AcceptedProtocol(c: Config, s: string) returns (t: string, d: Config)
    requires c.state == HttpVersionH && c.req.headers == [] && Run(c, s).verdict == Good
    ensures s == "HTTP/" + t
    ensures d.state == HttpVersionMajorStart && d.req.headers == [] && Run(c, s) == Shift(Run(d, t), 5)
  {
    d := Config(HttpVersionMajorStart, c.req.(major := 0, minor := 0));
    var c1, c2, c3 := c.(state := HttpVersionT1), c.(state := HttpVersionT2), c.(state := HttpVersionP);
    var t1 := AcceptedTwoBytes(c, s, 'H', c1, 'T', c2);
    var t2 := AcceptedTwoBytes(c2, t1, 'T', c3, 'P', c.(state := HttpVersionSlash));
    t := AcceptedByte(c.(state := HttpVersionSlash), t2, '/', d);
    assert "HTTP/" + t == ['H', 'T'] + (['T', 'P'] + (['/'] + t));
  }

  lemma AcceptedMajor(c: Config, s: string) returns (digits: string, t: string, d: Config)
    requires c.state == HttpVersionMajorStart && c.req.headers == [] && Run(c, s).verdict == Good
    ensures digits != "" && DigitText(digits) && s == digits + "." + t
    ensures d.state == HttpVersionMinorStart && d.req.headers == [] && Run(c, s) == Shift(Run(d, t), |digits| + 1)
  {
    var c1 := Step(c, s[0]).config;
    var u, t1 := AcceptedLoop(c1, s[1..]);
    d := Absorb(c1, u).(state := HttpVersionMinorStart);
    t := AcceptedByte(Absorb(c1, u), t1, '.', d);
    digits := [s[0]] + u;
    assert s == [s[0]] + s[1..];
  }

  lemma AcceptedMinor(c: Config, s: string) returns (digits: string, t: string, d: Config)
    requires c.state == HttpVersionMinorStart && c.req.headers == [] && Run(c, s).verdict == Good
    ensures digits != "" && DigitText(digits) && s == digits + CRLF + t
    ensures d.state == HeaderLineStart && d.req.headers == [] && Run(c, s) == Shift(Run(d, t), |digits| + 2)
  {
    var c1 := Step(c, s[0]).config;
    var u, t1 := AcceptedLoop(c1, s[1..]);
    t, d := AcceptedCrlf(Absorb(c1, u), t1);
    digits := [s[0]] + u;
    assert s == [s[0]] + s[1..];
    Regroup(s[0], u, CRLF, t);
  }

  lemma Regroup(b: char, u: string, v: string, t: string)
    ensures [b] + (u + (v + t)) == ([b] + u) + v + t
  {
    assert ([b] + u) + v + t == [b] + (u + (v + t));
  }

  lemma AcceptedRequestLine(c: Config, s: string) returns (m: Message, t: string, d: Config)
    requires Fresh(c) && Run(c, s).verdict == Good
    ensures MessageOk(m) && m.fields == [] && s == RequestLine(m) + t
    ensures d.state == HeaderLineStart && d.req.headers == []
    ensures Run(c, s) == Shift(Run(d, t), |RequestLine(m)|)
  {
    var name, t1, c1 := AcceptedMethod(c, s);
    var uri, t2, c2 := AcceptedUri(c1, t1);
    var t3, c3 := AcceptedProtocol(c2, t2);
    var major, t4, c4 := AcceptedMajor(c3, t3);
    var minor, t5, c5 := AcceptedMinor(c4, t4);
    m, t, d := Message(name, uri, major, minor, []), t5, c5;
    RequestLineThen(m, t);
  }

  lemma RequestLineThen(m: Message, t: string)
    ensures m.methodName + " " + (m.uri + " " + ("HTTP/" + (m.major + "." + (m.minor + CRLF + t))))
          == RequestLine(m) + t
  {
    var w := m.major + "." + m.minor + CRLF;
    assert m.major + "." + (m.minor + CRLF + t) == w + t;
    assert m.uri + " " + ("HTTP/" + (w + t)) == (m.uri + " " + "HTTP/") + w + t;
    assert RequestLine(m) == (m.methodName + " ") + ((m.uri + " " + "HTTP/") + w);
  }

  lemma AcceptedRequest(c: Config, s: string) returns (m: Message)
    requires Fresh(c) && Run(c, s).verdict == Good
    ensures MessageOk(m) && MessageText(m) <= s && Run(c, s).consumed == |MessageText(m)|
  {
    var line, t, d := AcceptedRequestLine(c, s);
    var folds, fields := AcceptedHeaderSection(d, t);
    m := line.(fields := fields);
    assert SectionText([], fields) == FieldsText(fields) + CRLF;
    assert RequestLine(m) == RequestLine(line);
    ExtendPrefix(RequestLine(m), SectionText([], fields), t);
  }

  // ---- The language theorem

  /** From each state, the next byte of one way to finish a request, and the state it leads to. */
  function FinishByte(state: State): char {
    match state
    case MethodStart => 'G'
    case Method | Uri | SpaceBeforeHeaderValue => ' '
    case HttpVersionH => 'H'
    case HttpVersionT1 | HttpVersionT2 => 'T'
    case HttpVersionP => 'P'
    case HttpVersionSlash => '/'
    case HttpVersionMajorStart => '1'
    case HttpVersionMajor => '.'
    case HttpVersionMinorStart => '0'
    case HeaderName => ':'
    case HttpVersionMinor | HeaderValue | HeaderLws | HeaderLineStart => '\r'
    case ExpectingNewline1 | ExpectingNewline2 | ExpectingNewline3 => '\n'
  }

  function FinishNext(state: State): State {
    match state
    case MethodStart => Method
    case Method => Uri
    case Uri => HttpVersionH
    case HttpVersionH => HttpVersionT1
    case HttpVersionT1 => HttpVersionT2
    case HttpVersionT2 => HttpVersionP
    case HttpVersionP => HttpVersionSlash
    case HttpVersionSlash => HttpVersionMajorStart
    case HttpVersionMajorStart => HttpVersionMajor
    case HttpVersionMajor => HttpVersionMinorStart
    case HttpVersionMinorStart => HttpVersionMinor
    case HttpVersionMinor => ExpectingNewline1
    case HeaderName => SpaceBeforeHeaderValue
    case SpaceBeforeHeaderValue => HeaderValue
    case HeaderValue | HeaderLws => ExpectingNewline2
    case ExpectingNewline1 | ExpectingNewline2 => HeaderLineStart
    case HeaderLineStart | ExpectingNewline3 => ExpectingNewline3
  }

  function Distance(state: State): nat {
    match state
    case MethodStart => 15
    case Method => 14
    case Uri => 13
    case HttpVersionH => 12
    case HttpVersionT1 => 11
    case HttpVersionT2 => 10
    case HttpVersionP => 9
    case HttpVersionSlash => 8
    case HttpVersionMajorStart => 7
    case HttpVersionMajor | HeaderName => 6
    case HttpVersionMinorStart | SpaceBeforeHeaderValue => 5
    case HttpVersionMinor | HeaderValue | HeaderLws => 4
    case ExpectingNewline1 | ExpectingNewline2 => 3
    case HeaderLineStart => 2
    case ExpectingNewline3 => 1
  }

  function Completion(state: State): (s: string)
    ensures s != ""
    decreases Distance(state)
  {
    [FinishByte(state)] + if state == ExpectingNewline3 then "" else Completion(FinishNext(state))
  }

  lemma FinishStep(c: Config) returns (d: Config)
    requires Sound(c) && c.state != ExpectingNewline3
    ensures Reaches(c, [FinishByte(c.state)], d) && d.state == FinishNext(c.state) && Sound(d)
  {
    d := Step(c, FinishByte(c.state)).config;
    ReachesOne(c, FinishByte(c.state), d);
  }

  /** No state is a dead end. */
  lemma {:induction false} CompletionAccepted(c: Config)
    requires Sound(c)
    ensures Run(c, Completion(c.state)).verdict == Good
    ensures Run(c, Completion(c.state)).consumed == |Completion(c.state)|
    decreases Distance(c.state)
  {
    if c.state == ExpectingNewline3 {
      assert Completion(c.state) == "\n";
    } else {
      var d := FinishStep(c);
      CompletionAccepted(d);
      RunAppend(c, [FinishByte(c.state)], Completion(d.state));
    }
  }

  /** Some request starts with `p`. */
  ghost predicate Viable(p: string) {
    exists t :: IsRequest(p + t)
  }

  lemma RequestAccepted(c: Config, w: string, rest: string)
    requires Fresh(c) && IsRequest(w)
    ensures Run(c, w + rest).verdict == Good && Run(c, w + rest).consumed == |w|
  {
    var m :| MessageOk(m) && MessageText(m) == w;
    TreeAccepted(c, m, rest);
  }

  lemma GoodPrefixIsRequest(c: Config, s: string)
    requires Fresh(c) && Run(c, s).verdict == Good
    ensures IsRequest(s[..Run(c, s).consumed])
  {
    var m := AcceptedRequest(c, s);
    assert MessageText(m) == s[..|MessageText(m)|];
  }

  lemma IndeterminateIsViable(c: Config, s: string)
    requires Fresh(c) && Run(c, s).verdict == Indeterminate
    ensures exists t :: t != "" && IsRequest(s + t)
  {
    var d := Run(c, s).config;
    var t := Completion(d.state);
    CompletionAccepted(d);
    RunAppend(c, s, t);
    GoodPrefixIsRequest(c, s + t);
    assert (s + t)[..|s + t|] == s + t;
  }

  /** Good exactly when a prefix of the input is a request; that prefix is the part taken. */
  lemma GoodMeansRequest(c: Config, s: string)
    requires Fresh(c)
    ensures forall k | 0 <= k <= |s| :: IsRequest(s[..k]) <==> Run(c, s).verdict == Good && Run(c, s).consumed == k
  {
    forall k | 0 <= k <= |s|
      ensures IsRequest(s[..k]) <==> Run(c, s).verdict == Good && Run(c, s).consumed == k
    {
      if IsRequest(s[..k]) {
        RequestAccepted(c, s[..k], s[k..]);
        assert s[..k] + s[k..] == s;
      }
      if Run(c, s).verdict == Good {
        GoodPrefixIsRequest(c, s);
      }
    }
  }

  /** Indeterminate exactly when the input is a proper prefix of a request. */
  lemma IndeterminateMeansProperPrefix(c: Config, s: string)
    requires Fresh(c)
    ensures Run(c, s).verdict == Indeterminate <==> exists t :: t != "" && IsRequest(s + t)
  {
    if Run(c, s).verdict == Indeterminate {
      IndeterminateIsViable(c, s);
    }
    forall t | t != "" && IsRequest(s + t)
      ensures Run(c, s).verdict == Indeterminate
    {
      RequestAccepted(c, s + t, "");
      assert s + t + "" == s + t;
      RunAppend(c, s, t);
    }
  }

  /** The three verdicts, told from the language alone. */
  lemma VerdictMeansLanguage(c: Config, s: string)
    requires Fresh(c)
    ensures Run(c, s).verdict == Good <==> exists k :: 0 <= k <= |s| && IsRequest(s[..k])
    ensures Run(c, s).verdict == Indeterminate <==> exists t :: t != "" && IsRequest(s + t)
    ensures Run(c, s).verdict == Bad <==> !Viable(s) && forall k | 0 <= k <= |s| :: !IsRequest(s[..k])
  {
    GoodMeansRequest(c, s);
    IndeterminateMeansProperPrefix(c, s);
    assert IsRequest(s) <==> IsRequest(s + "") by { assert s + "" == s; }
    assert s[..|s|] == s;
    if Run(c, s).verdict == Good {
      assert IsRequest(s[..Run(c, s).consumed]);
    }
    if Run(c, s).verdict == Indeterminate {
      var t :| t != "" && IsRequest(s + t);
      assert Viable(s);
    }
  }

  /** No request is a proper prefix of another. */
  lemma RequestsArePrefixFree(v: string, w: string)
    requires IsRequest(v) && IsRequest(w) && v <= w
    ensures v == w
  {
    var c := Config(MethodStart, RequestData("", "", 0, 0, []));
    RequestAccepted(c, v, w[|v|..]);
    assert v + w[|v|..] == w;
    RequestAccepted(c, w, "");
    assert w + "" == w;
  }

  /** Two trees of one text denote the same request: the grammar has one meaning per text. */
  lemma MeaningIsUnique(m: Message, n: Message)
    requires MessageOk(m) && MessageOk(n) && MessageText(m) == MessageText(n)
    ensures Meaning(m) == Meaning(n)
  {
    var c := Config(MethodStart, RequestData("", "", 0, 0, []));
    TreeAccepted(c, m, "");
    TreeAccepted(c, n, "");
  }

  /** On a good verdict the request built is the meaning of the bytes taken. */
  lemma GoodBuildsMeaning(c: Config, s: string, m: Message)
    requires Fresh(c) && Run(c, s).verdict == Good
    requires MessageOk(m) && MessageText(m) == s[..Run(c, s).consumed]
    ensures Run(c, s).config.req == Meaning(m)
  {
    TreeAccepted(c, m, s[|MessageText(m)|..]);
    assert MessageText(m) + s[|MessageText(m)|..] == s;
  }

  /** A bad verdict falls at the first byte after which no request is possible any more. */
  lemma BadAtFirstHopelessByte(c: Config, s: string)
    requires Fresh(c) && Run(c, s).verdict == Bad
    ensures Viable(s[..Run(c, s).consumed - 1]) && !Viable(s[..Run(c, s).consumed])
  {
    var k := Run(c, s).consumed;
    var p, q := s[..k - 1], s[..k];
    RunIgnoresRest(c, s);
    VerdictMeansLanguage(c, q);
    assert q == p + q[k - 1..];
    RunAppend(c, p, q[k - 1..]);
    IndeterminateIsViable(c, p);
    var t :| t != "" && IsRequest(p + t);
  }
}
