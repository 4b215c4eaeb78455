/** The values exchanged by the server: headers, requests and replies. */
module HttpMessage {
  import opened CharClass

  datatype Header = Header(name: string, value: string)

  datatype RequestData = RequestData(
    methodName: string,
    uri: string,
    major: int,
    minor: int,
    headers: seq<Header>
  )

  /** `headers.back().value += text` */
  function ExtendLastValue(headers: seq<Header>, text: string): seq<Header>
    requires headers != []
  {
    var last := headers[|headers| - 1];
    headers[..|headers| - 1] + [last.(value := last.value + text)]
  }

  /** `headers.back().name += text` */
  function ExtendLastName(headers: seq<Header>, text: string): seq<Header>
    requires headers != []
  {
    var last := headers[|headers| - 1];
    headers[..|headers| - 1] + [last.(name := last.name + text)]
  }

  const CRLF := "\r\n"

  function HeaderLine(h: Header): string {
    h.name + ": " + h.value + CRLF
  }

  /** Header lines as the server prints them: name, colon, space, value, line end. */
  function HeaderLines(headers: seq<Header>): string {
    if headers == [] then "" else HeaderLine(headers[0]) + HeaderLines(headers[1..])
  }

  /** Non-empty token names and values without control characters. */
  predicate HeadersOk(headers: seq<Header>) {
    forall i | 0 <= i < |headers| ::
      headers[i].name != "" && TokenText(headers[i].name) && ValueText(headers[i].value)
  }

  function Concat(chunks: seq<string>): string {
    if chunks == [] then "" else chunks[0] + Concat(chunks[1..])
  }

  lemma {:induction false} ConcatAppend(a: seq<string>, b: seq<string>)
    ensures Concat(a + b) == Concat(a) + Concat(b)
  {
    if a == [] {
      assert a + b == b;
    } else {
      ConcatAppend(a[1..], b);
      assert (a + b)[1..] == a[1..] + b;
      assert Concat(a + b) == a[0] + (Concat(a[1..]) + Concat(b));
    }
  }
}
