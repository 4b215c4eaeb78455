/** The request syntax as a grammar, written down without the parser: a tree per request, the
    text the tree stands for, and the request it denotes (sections 2.2, 3.1, 4.2 and 5.1 of
    RFC 1945, with the parser's own liberties: the URI may be empty, exactly one space follows
    the colon of a field, and tabs are not allowed inside values). */
module RequestGrammar {
  import opened CharClass
  import opened Decimal
  import opened HttpMessage

  /** A continuation line: at least one blank, then nothing or a text that starts with a
      non-blank. */
  datatype Fold = Fold(blanks: string, text: string)

  /** A header field: its first line and the continuation lines that follow. */
  datatype Field = Field(name: string, text: string, folds: seq<Fold>)

  datatype Message = Message(methodName: string, uri: string, major: string, minor: string, fields: seq<Field>)

  predicate FoldOk(f: Fold) {
    && f.blanks != "" && BlankText(f.blanks)
    && ValueText(f.text) && (f.text != "" ==> !IsBlank(f.text[0]))
  }

  predicate FoldsOk(folds: seq<Fold>) {
    forall i | 0 <= i < |folds| :: FoldOk(folds[i])
  }

  predicate FieldOk(f: Field) {
    f.name != "" && TokenText(f.name) && ValueText(f.text) && FoldsOk(f.folds)
  }

  predicate FieldsOk(fields: seq<Field>) {
    forall i | 0 <= i < |fields| :: FieldOk(fields[i])
  }

  predicate MessageOk(m: Message) {
    && m.methodName != "" && TokenText(m.methodName)
    && UriText(m.uri)
    && m.major != "" && DigitText(m.major)
    && m.minor != "" && DigitText(m.minor)
    && FieldsOk(m.fields)
  }

  // ---- The text of a tree

  function FoldsText(folds: seq<Fold>): string {
    if folds == [] then "" else folds[0].blanks + folds[0].text + CRLF + FoldsText(folds[1..])
  }

  function FieldText(f: Field): string {
    f.name + ": " + f.text + CRLF + FoldsText(f.folds)
  }

  function FieldsText(fields: seq<Field>): string {
    if fields == [] then "" else FieldText(fields[0]) + FieldsText(fields[1..])
  }

  function RequestLine(m: Message): string {
    m.methodName + " " + m.uri + " " + "HTTP/" + m.major + "." + m.minor + CRLF
  }

  function MessageText(m: Message): string {
    RequestLine(m) + (FieldsText(m.fields) + CRLF)
  }

  /** The language of requests. */
  ghost predicate IsRequest(w: string) {
    exists m :: MessageOk(m) && MessageText(m) == w
  }

  // ---- The meaning of a tree

  /** The continuation texts run together, without their leading blanks. */
  function FoldsMeaning(folds: seq<Fold>): string {
    if folds == [] then "" else folds[0].text + FoldsMeaning(folds[1..])
  }

  function FieldMeaning(f: Field): Header {
    Header(f.name, f.text + FoldsMeaning(f.folds))
  }

  function FieldsMeaning(fields: seq<Field>): seq<Header> {
    if fields == [] then [] else [FieldMeaning(fields[0])] + FieldsMeaning(fields[1..])
  }

  function Meaning(m: Message): RequestData {
    RequestData(m.methodName, m.uri, NumeralValue(m.major), NumeralValue(m.minor), FieldsMeaning(m.fields))
  }
}
