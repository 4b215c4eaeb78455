/** The canonical text of a request, and the round trips between texts and requests. */
module RequestPrinter {
  import opened CharClass
  import opened Decimal
  import opened HttpMessage
  import opened ParserMachine
  import opened RequestGrammar
  import opened ParserLanguage

  /** The request line with decimal version numbers, then the header lines. */
  function Print(q: RequestData): string
    requires q.major >= 0 && q.minor >= 0
  {
    q.methodName + " " + q.uri + " " + "HTTP/" + Numeral(q.major) + "." + Numeral(q.minor) + CRLF
    + (HeaderLines(q.headers) + CRLF)
  }

  /** The requests that have a text: token method and names, values without CTLs, and a URI
      without spaces and CTLs. */
  predicate Printable(q: RequestData) {
    && q.methodName != "" && TokenText(q.methodName)
    && UriText(q.uri)
    && q.major >= 0 && q.minor >= 0
    && HeadersOk(q.headers)
  }

  // ---- The tree of a printed request

  function PlainFields(headers: seq<Header>): seq<Field> {
    if headers == [] then []
    else [Field(headers[0].name, headers[0].value, [])] + PlainFields(headers[1..])
  }

  lemma {:induction false} PlainFieldsText(headers: seq<Header>)
    ensures FieldsText(PlainFields(headers)) == HeaderLines(headers)
    ensures FieldsMeaning(PlainFields(headers)) == headers
    ensures HeadersOk(headers) ==> FieldsOk(PlainFields(headers))
  {
    if headers != [] {
      var h := headers[0];
      PlainFieldsText(headers[1..]);
      assert PlainFields(headers)[1..] == PlainFields(headers[1..]);
      assert h.value + "" == h.value;
      assert h.name + ": " + h.value + CRLF + "" == h.name + ": " + h.value + CRLF;
      assert HeadersOk(headers) ==> HeadersOk(headers[1..]);
    }
  }

  function PlainTree(q: RequestData): Message
    requires q.major >= 0 && q.minor >= 0
  {
    Message(q.methodName, q.uri, Numeral(q.major), Numeral(q.minor), PlainFields(q.headers))
  }

  lemma {:induction false} FieldsMeaningOk(fields: seq<Field>)
    requires FieldsOk(fields)
    ensures HeadersOk(FieldsMeaning(fields))
  {
    if fields != [] {
      FieldsMeaningOk(fields[1..]);
      FoldsMeaningOk(fields[0].folds);
    }
  }

  lemma {:induction false} FoldsMeaningOk(folds: seq<Fold>)
    requires FoldsOk(folds)
    ensures ValueText(FoldsMeaning(folds))
  {
    if folds != [] {
      FoldsMeaningOk(folds[1..]);
    }
  }

  /** Everything the parser builds can be printed. */
  lemma MeaningIsPrintable(m: Message)
    requires MessageOk(m)
    ensures Printable(Meaning(m))
  {
    ValueBounds(m.major);
    ValueBounds(m.minor);
    FieldsMeaningOk(m.fields);
  }

  /** Parsing a printed request is good, takes exactly the printed text and rebuilds the
      request, if and only if the request is printable. */
  lemma PrintThenParse(c: Config, q: RequestData, rest: string)
    requires Fresh(c) && q.major >= 0 && q.minor >= 0
    ensures Printable(q)
       <==> (var o := Run(c, Print(q) + rest); o.verdict == Good && o.consumed == |Print(q)| && o.config.req == q)
  {
    var o := Run(c, Print(q) + rest);
    if Printable(q) {
      PlainFieldsText(q.headers);
      NumeralRoundTrip(q.major);
      NumeralRoundTrip(q.minor);
      TreeAccepted(c, PlainTree(q), rest);
      assert MessageText(PlainTree(q)) == Print(q);
    } else if o.verdict == Good && o.config.req == q {
      var m := AcceptedRequest(c, Print(q) + rest);
      GoodBuildsMeaning(c, Print(q) + rest, m);
      MeaningIsPrintable(m);
    }
  }

  // ---- From a text back to itself

  predicate Unfolded(fields: seq<Field>) {
    forall i | 0 <= i < |fields| :: fields[i].folds == []
  }

  lemma {:induction false} FoldsGetShorter(folds: seq<Fold>)
    requires FoldsOk(folds)
    ensures |FoldsText(folds)| >= |FoldsMeaning(folds)| + 3 * |folds|
  {
    if folds != [] {
      FoldsGetShorter(folds[1..]);
    }
  }

  lemma PrintFieldMeaning(f: Field)
    requires FieldOk(f)
    ensures f.folds == [] ==> HeaderLine(FieldMeaning(f)) == FieldText(f)
    ensures f.folds != [] ==> |HeaderLine(FieldMeaning(f))| < |FieldText(f)|
  {
    FoldsGetShorter(f.folds);
    if f.folds == [] {
      assert f.text + "" == f.text;
      assert HeaderLine(FieldMeaning(f)) + "" == HeaderLine(FieldMeaning(f));
    }
  }

  lemma UnfoldedStep(fields: seq<Field>)
    requires fields != []
    ensures Unfolded(fields) <==> fields[0].folds == [] && Unfolded(fields[1..])
  {
    if fields[0].folds == [] && Unfolded(fields[1..]) {
      assert forall i | 0 < i < |fields| :: fields[i] == fields[1..][i - 1];
    }
  }

  lemma {:induction false} PrintFieldsMeaning(fields: seq<Field>)
    requires FieldsOk(fields)
    ensures Unfolded(fields) ==> HeaderLines(FieldsMeaning(fields)) == FieldsText(fields)
    ensures !Unfolded(fields) ==> |HeaderLines(FieldsMeaning(fields))| < |FieldsText(fields)|
  {
    if fields != [] {
      PrintFieldsMeaning(fields[1..]);
      PrintFieldMeaning(fields[0]);
      UnfoldedStep(fields);
      assert FieldsMeaning(fields)[1..] == FieldsMeaning(fields[1..]);
      assert HeaderLines(FieldsMeaning(fields))
          == HeaderLine(FieldMeaning(fields[0])) + HeaderLines(FieldsMeaning(fields[1..]));
    }
  }

  /** No continuation lines, and version numbers without leading zeros. */
  predicate InCanonicalForm(m: Message) {
    Unfolded(m.fields) && Canonical(m.major) && Canonical(m.minor)
  }

  /** Printing the parse of a text gives the bytes taken back exactly when the text has no
      continuation lines and no leading zeros in its version; otherwise it gives fewer bytes. */
  lemma ParseThenPrint(c: Config, s: string, m: Message)
    requires Fresh(c) && Run(c, s).verdict == Good
    requires MessageOk(m) && MessageText(m) == s[..Run(c, s).consumed]
    ensures Printable(Run(c, s).config.req)
    ensures InCanonicalForm(m) <==> Print(Run(c, s).config.req) == s[..Run(c, s).consumed]
    ensures !InCanonicalForm(m) ==> |Print(Run(c, s).config.req)| < Run(c, s).consumed
  {
    GoodBuildsMeaning(c, s, m);
    MeaningIsPrintable(m);
    PrintFieldsMeaning(m.fields);
    PrintReadNumeral(m.major);
    PrintReadNumeral(m.minor);
    var q := Meaning(m);
    assert |Print(q)| == |m.methodName| + |m.uri| + |Numeral(q.major)| + |Numeral(q.minor)|
          + |HeaderLines(q.headers)| + 12;
    assert |MessageText(m)| == |m.methodName| + |m.uri| + |m.major| + |m.minor| + |FieldsText(m.fields)| + 12;
  }
}
