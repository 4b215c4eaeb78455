/** The listings that the list command can bring: exactly those in which every bundle goes by its own
    trimmed name, and all its fields are trimmed and within a line. */
module Listings {
  import opened Options
  import opened Strings
  import opened Bundles

  /** What a field of a bundle can be. */
  predicate Listable(s: string) {
    Trim(s) == s && '\n' !in s
  }

  predicate ReadableInfo(info: Info) {
    && Listable(info.id) && Listable(info.state) && Listable(info.blueprint)
    && Listable(info.spring) && Listable(info.level) && Listable(info.name)
    && info.restarts == 0 && info.attempts == []
  }

  predicate Readable(m: map<string, Info>) {
    forall n | n in m :: m[n].name == n && ReadableInfo(m[n])
  }

  /** The six fields stand in the line one behind the other, with something around them. */
  predicate Interleaved(line: string, f: Fields, gaps: seq<string>) {
    && |gaps| == 7
    && line == gaps[0] + f.id + gaps[1] + f.state + gaps[2] + f.blueprint + gaps[3] + f.spring
             + gaps[4] + f.level + gaps[5] + f.name + gaps[6]
  }

  ghost predicate InLine(line: string, f: Fields) {
    exists gaps :: Interleaved(line, f, gaps)
  }

  /** A list parser captures parts of the line it is given. */
  ghost predicate Captures(parse: string -> Option<Fields>) {
    forall line :: parse(line).Some? ==> InLine(line, parse(line).value)
  }

  /** Some output of the list command gives this listing, under some list parser. */
  ghost predicate Received(m: map<string, Info>) {
    exists output, parse :: Captures(parse) && Listed(BundleLines(output), parse) == m
  }

  // ---- What is received is readable

  lemma TrimmedIsListable(s: string)
    requires '\n' !in s
    ensures Listable(Trim(s))
  {
    TrimTwice(s);
    TrimCutsSpaces(s);
    var i: nat, j: nat :| Cut(s, i, j, Trim(s));
    assert forall k | 0 <= k < |Trim(s)| :: Trim(s)[k] == s[i + k];
  }

  lemma FieldsWithinLine(line: string, f: Fields)
    requires InLine(line, f) && '\n' !in line
    ensures '\n' !in f.id && '\n' !in f.state && '\n' !in f.blueprint
    ensures '\n' !in f.spring && '\n' !in f.level && '\n' !in f.name
  {
    var gaps :| Interleaved(line, f, gaps);
    var a, b, c := gaps[0] + f.id, gaps[1] + f.state, gaps[2] + f.blueprint;
    var d, e, g := gaps[3] + f.spring, gaps[4] + f.level, gaps[5] + f.name;
    assert line == a + b + c + d + e + g + gaps[6];
  }

  lemma InfoIsReadable(line: string, f: Fields)
    requires InLine(line, f) && '\n' !in line
    ensures ReadableInfo(InfoOf(f))
  {
    FieldsWithinLine(line, f);
    TrimmedIsListable(f.id);
    TrimmedIsListable(f.state);
    TrimmedIsListable(f.blueprint);
    TrimmedIsListable(f.spring);
    TrimmedIsListable(f.level);
    TrimmedIsListable(f.name);
  }

  lemma {:induction false} ListedIsReadable(lines: seq<string>, parse: string -> Option<Fields>)
    requires Captures(parse) && forall i | 0 <= i < |lines| :: '\n' !in lines[i]
    ensures Readable(Listed(lines, parse))
  {
    if lines != [] {
      var line := lines[|lines| - 1];
      ListedIsReadable(lines[..|lines| - 1], parse);
      if parse(line).Some? {
        InfoIsReadable(line, parse(line).value);
      }
    }
  }

  // ---- What is readable can be received

  function FieldsOf(info: Info): Fields {
    Fields(info.id, info.state, info.blueprint, info.spring, info.level, info.name)
  }

  function Pluses(n: nat): string {
    seq(n, _ => '+')
  }

  function LeadingPluses(line: string): nat {
    if line == "" || line[0] != '+' then 0 else 1 + LeadingPluses(line[1..])
  }

  lemma {:induction false} PlusesLead(n: nat, rest: string)
    ensures LeadingPluses(Pluses(n) + "|" + rest) == n
  {
    var line := Pluses(n) + "|" + rest;
    if n > 0 {
      assert line[1..] == Pluses(n - 1) + "|" + rest;
      PlusesLead(n - 1, rest);
    }
  }

  /** The fields, behind a mark that tells the lines of a listing apart. */
  function LineOf(n: nat, f: Fields): string {
    Pluses(n) + "|" + (f.id + "|" + f.state + "|" + f.blueprint + "|" + f.spring + "|" + f.level + "|" + f.name)
  }

  lemma LineOfHoldsFields(n: nat, f: Fields)
    ensures InLine(LineOf(n, f), f)
  {
    var gaps := [Pluses(n) + "|", "|", "|", "|", "|", "|", ""];
    assert Interleaved(LineOf(n, f), f, gaps);
  }

  /** A table of lines and their fields, with fewer than `n` '+'s in front of each line. */
  ghost predicate TableOk(t: map<string, Fields>, n: nat) {
    forall line | line in t :: '\n' !in line && LeadingPluses(line) < n && InLine(line, t[line])
  }

  function TableParser(t: map<string, Fields>): string -> Option<Fields> {
    line => if line in t then Some(t[line]) else None
  }

  lemma TableCaptures(t: map<string, Fields>, n: nat)
    requires TableOk(t, n)
    ensures Captures(TableParser(t))
  {
  }

  predicate Extends(u: map<string, Fields>, t: map<string, Fields>) {
    forall line | line in t :: line in u && u[line] == t[line]
  }

  lemma {:induction false} ListedByMore(lines: seq<string>, t: map<string, Fields>, u: map<string, Fields>)
    requires Extends(u, t) && forall i | 0 <= i < |lines| :: lines[i] in t
    ensures Listed(lines, TableParser(u)) == Listed(lines, TableParser(t))
  {
    if lines != [] {
      ListedByMore(lines[..|lines| - 1], t, u);
    }
  }

  lemma NoNewline(n: nat, f: Fields)
    requires '\n' !in f.id && '\n' !in f.state && '\n' !in f.blueprint
    requires '\n' !in f.spring && '\n' !in f.level && '\n' !in f.name
    ensures '\n' !in LineOf(n, f)
  {
  }

  lemma LineIsNew(t: map<string, Fields>, n: nat, info: Info)
    requires TableOk(t, n) && ReadableInfo(info)
    ensures var line, f := LineOf(n, FieldsOf(info)), FieldsOf(info);
            line !in t && Extends(t[line := f], t) && TableOk(t[line := f], n + 1) && InfoOf(f) == info
  {
    var f := FieldsOf(info);
    PlusesLead(n, f.id + "|" + f.state + "|" + f.blueprint + "|" + f.spring + "|" + f.level + "|" + f.name);
    LineOfHoldsFields(n, f);
    NoNewline(n, f);
  }

  lemma OneLineMore(front: seq<string>, t: map<string, Fields>, n: nat, info: Info)
    returns (lines: seq<string>, u: map<string, Fields>)
    requires TableOk(t, n) && ReadableInfo(info) && forall i | 0 <= i < |front| :: front[i] in t
    ensures Extends(u, t) && TableOk(u, n + 1) && forall i | 0 <= i < |lines| :: lines[i] in u
    ensures Listed(lines, TableParser(u)) == Listed(front, TableParser(t))[info.name := info]
  {
    var line, f := LineOf(n, FieldsOf(info)), FieldsOf(info);
    u := t[line := f];
    lines := front + [line];
    LineIsNew(t, n, info);
    ListedByMore(front, t, u);
    ListedSnoc(front, line, TableParser(u));
  }

  lemma TakenOut(m: map<string, Info>, k: string)
    requires k in m
    ensures |m - {k}| + 1 == |m| && (m - {k})[k := m[k]] == m
  {
    var rest := m - {k};
    assert m.Keys == rest.Keys + {k};
  }

  /** Lines for a readable listing, with a table that extends another one. */
  lemma Written(m: map<string, Info>, t: map<string, Fields>, n: nat)
    returns (lines: seq<string>, u: map<string, Fields>)
    requires Readable(m) && TableOk(t, n)
    ensures Extends(u, t) && TableOk(u, n + |m|) && forall i | 0 <= i < |lines| :: lines[i] in u
    ensures Listed(lines, TableParser(u)) == m
    decreases |m|
  {
    if m == map[] {
      lines, u := [], t;
    } else {
      var k :| k in m;
      TakenOut(m, k);
      var front, w := Written(m - {k}, t, n);
      lines, u := OneLineMore(front, w, n + |m - {k}|, m[k]);
      ExtendsOn(u, w, t);
    }
  }

  lemma ExtendsOn(v: map<string, Fields>, u: map<string, Fields>, t: map<string, Fields>)
    requires Extends(v, u) && Extends(u, t)
    ensures Extends(v, t)
  {
  }

  /** The output of a list command: two heading lines, then the lines of the bundles. */
  function Output(lines: seq<string>): string {
    Join(["", ""] + lines, '\n')
  }

  lemma OutputLines(lines: seq<string>)
    requires forall i | 0 <= i < |lines| :: '\n' !in lines[i]
    ensures BundleLines(Output(lines)) == lines
  {
    JoinSplit(["", ""] + lines, '\n');
  }

  /** A listing can be received if and only if it is readable. */
  lemma ReadableIsExact(m: map<string, Info>)
    ensures Received(m) <==> Readable(m)
  {
    if Received(m) {
      var output, parse :| Captures(parse) && Listed(BundleLines(output), parse) == m;
      SplitJoin(output, '\n');
      ListedIsReadable(BundleLines(output), parse);
    }
    if Readable(m) {
      var lines, t := Written(m, map[], 0);
      TableCaptures(t, |m|);
      OutputLines(lines);
    }
  }

  /** One list parser, and two outputs that it reads as two listings. */
  ghost predicate ReceivedInTurn(first: map<string, Info>, second: map<string, Info>) {
    exists before, after, parse :: Captures(parse) && Reads(parse, before, first) && Reads(parse, after, second)
  }

  ghost predicate Reads(parse: string -> Option<Fields>, output: string, m: map<string, Info>) {
    Listed(BundleLines(output), parse) == m
  }

  /** Any two readable listings can be received in turn, with the list parser left as it is. */
  lemma ReceivedByOneParser(first: map<string, Info>, second: map<string, Info>)
    requires Readable(first) && Readable(second)
    ensures ReceivedInTurn(first, second)
  {
    var a, t := Written(first, map[], 0);
    var b, u := Written(second, t, |first|);
    ListedByMore(a, t, u);
    TableCaptures(u, |first| + |second|);
    OutputLines(a);
    OutputLines(b);
    assert Reads(TableParser(u), Output(a), first) && Reads(TableParser(u), Output(b), second);
  }
}
