/** String operations shared by the request paths and the bundle lists. */
module Strings {

  /** The pieces between the separators; there is always at least one. */
  function Split(s: string, separator: char): (pieces: seq<string>)
    ensures pieces != []
  {
    if s == "" then [""]
    else
      var rest := Split(s[1..], separator);
      if s[0] == separator then [""] + rest else [[s[0]] + rest[0]] + rest[1..]
  }

  /** Joining the pieces again. */
  function Join(pieces: seq<string>, separator: char): string
    requires pieces != []
  {
    if |pieces| == 1 then pieces[0] else pieces[0] + [separator] + Join(pieces[1..], separator)
  }

  /** Splitting loses nothing, and no piece holds a separator. */
  lemma {:induction false} SplitJoin(s: string, separator: char)
    ensures Join(Split(s, separator), separator) == s
    ensures forall i | 0 <= i < |Split(s, separator)| :: separator !in Split(s, separator)[i]
  {
    if s != "" {
      var rest := Split(s[1..], separator);
      SplitJoin(s[1..], separator);
      if s[0] == separator {
        assert ([""] + rest)[1..] == rest;
        assert "" + [separator] + s[1..] == s;
      } else {
        var pieces := [[s[0]] + rest[0]] + rest[1..];
        assert pieces[1..] == rest[1..];
        if |rest| == 1 {
          assert [s[0]] + rest[0] == s;
        } else {
          assert ([s[0]] + rest[0]) + [separator] + Join(rest[1..], separator)
              == [s[0]] + (rest[0] + [separator] + Join(rest[1..], separator));
        }
      }
    }
  }

  lemma {:induction false} SplitPlain(a: string, rest: string, separator: char)
    requires separator !in a
    ensures Split(a, separator) == [a]
    ensures Split(a + [separator] + rest, separator) == [a] + Split(rest, separator)
  {
    var s := a + [separator] + rest;
    if a == "" {
      assert s[1..] == rest;
    } else {
      SplitPlain(a[1..], rest, separator);
      assert s[1..] == a[1..] + [separator] + rest && [a[0]] + a[1..] == a;
    }
  }

  /** Pieces without separators come back from splitting what they are joined to. */
  lemma {:induction false} JoinSplit(pieces: seq<string>, separator: char)
    requires pieces != [] && forall i | 0 <= i < |pieces| :: separator !in pieces[i]
    ensures Split(Join(pieces, separator), separator) == pieces
  {
    if |pieces| == 1 {
      SplitPlain(pieces[0], "", separator);
    } else {
      JoinSplit(pieces[1..], separator);
      SplitPlain(pieces[0], Join(pieces[1..], separator), separator);
    }
  }

  predicate AllSpaces(s: string) {
    forall i | 0 <= i < |s| :: s[i] == ' '
  }

  function SpacesFrom(s: string, i: nat): (n: nat)
    requires i <= |s|
    ensures i <= n <= |s| && (n < |s| ==> s[n] != ' ') && forall j | i <= j < n :: s[j] == ' '
    decreases |s| - i
  {
    if i == |s| || s[i] != ' ' then i else SpacesFrom(s, i + 1)
  }

  function TextBefore(s: string, n: nat): (e: nat)
    requires n <= |s|
    ensures e <= n && (e > 0 ==> s[e - 1] != ' ') && forall j | e <= j < n :: s[j] == ' '
  {
    if n == 0 || s[n - 1] != ' ' then n else TextBefore(s, n - 1)
  }

  /** `s.find_first_not_of(' ')`, or the length if there is none. */
  function SpacesInFront(s: string): (n: nat)
    ensures n <= |s| && (n < |s| ==> s[n] != ' ') && forall i | 0 <= i < n :: s[i] == ' '
  {
    SpacesFrom(s, 0)
  }

  /** One behind `s.find_last_not_of(' ')`, or 0 if there is none. */
  function EndOfText(s: string): (n: nat)
    ensures n <= |s| && (n > 0 ==> s[n - 1] != ' ') && forall i | n <= i < |s| :: s[i] == ' '
  {
    TextBefore(s, |s|)
  }

  /** Leading and trailing spaces removed; a text of nothing but spaces is returned as it is. */
  function Trim(s: string): string {
    var first := SpacesInFront(s);
    if first == |s| then s else s[first..EndOfText(s)]
  }

  /** `r` is what is left of `s` when spaces before `i` and from `j` on are cut off. */
  predicate Cut(s: string, i: nat, j: nat, r: string) {
    i <= j <= |s| && AllSpaces(s[..i]) && AllSpaces(s[j..]) && r == s[i..j]
  }

  /** What is cut off is spaces, and nothing more could be cut off. */
  lemma TrimCutsSpaces(s: string)
    ensures AllSpaces(s) ==> Trim(s) == s
    ensures !AllSpaces(s) ==> Trim(s) != "" && Trim(s)[0] != ' ' && Trim(s)[|Trim(s)| - 1] != ' '
    ensures exists i, j :: Cut(s, i, j, Trim(s))
  {
    var first, last := SpacesInFront(s), EndOfText(s);
    if first == |s| {
      assert Cut(s, 0, |s|, s);
    } else {
      assert Cut(s, first, last, s[first..last]);
    }
  }

  /** Trimming twice is trimming once. */
  lemma TrimTwice(s: string)
    ensures Trim(Trim(s)) == Trim(s)
  {
    TrimCutsSpaces(s);
    var r := Trim(s);
    if !AllSpaces(s) {
      assert SpacesInFront(r) == 0 && EndOfText(r) == |r|;
    }
  }

  /** Trimming leaves a text alone that neither starts nor ends with a space. */
  lemma TrimmedWord(s: string)
    requires s != "" ==> s[0] != ' ' && s[|s| - 1] != ' '
    ensures Trim(s) == s
  {
    if s != "" {
      assert SpacesInFront(s) == 0 && EndOfText(s) == |s|;
    }
  }

  /** A text between spaces comes out alone; nothing but spaces comes out as it is. */
  lemma TrimBetweenSpaces(m: nat, s: string, n: nat)
    requires s != "" && s[0] != ' ' && s[|s| - 1] != ' '
    ensures Trim(seq(m, _ => ' ') + s + seq(n, _ => ' ')) == s
    ensures Trim(seq(m, _ => ' ')) == seq(m, _ => ' ')
  {
    var text := seq(m, _ => ' ') + s + seq(n, _ => ' ');
    assert text[m] == s[0] && text[m + |s| - 1] == s[|s| - 1];
    assert SpacesInFront(text) == m && EndOfText(text) == m + |s|;
    assert text[m..m + |s|] == s;
  }
}
