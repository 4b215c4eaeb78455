/** URL decoding as the request handler does it, and the encoder it inverts (section 2.1 of
    RFC 3986, with `+` for a space). */
module UrlCodec {
  import opened CharClass
  import opened Options

  predicate IsHex(c: char) {
    IsDigit(c) || 'a' <= c <= 'f' || 'A' <= c <= 'F'
  }

  function HexValue(c: char): (v: nat)
    requires IsHex(c)
    ensures v < 16
  {
    if IsDigit(c) then c as int - '0' as int
    else if 'a' <= c then c as int - 'a' as int + 10
    else c as int - 'A' as int + 10
  }

  /** White space of the classic C++ locale. */
  predicate IsSpace(c: char) {
    c == ' ' || '\t' <= c <= '\r'
  }

  /** What `is >> std::hex >> value` reads from a stream of two characters: leading white space
      is skipped, a sign is taken, reading stops in front of the first character that is no
      digit, and a lone `0x` or nothing at all is a failure. */
  function HexField(a: char, b: char): Option<int> {
    if IsSpace(a) then
      if IsHex(b) then Some(HexValue(b)) else None
    else if a == '+' || a == '-' then
      if !IsHex(b) then None else (var v: int := HexValue(b); Some(if a == '-' then -v else v))
    else if !IsHex(a) || (a == '0' && (b == 'x' || b == 'X')) then None
    else Some(if IsHex(b) then 16 * HexValue(a) + HexValue(b) else HexValue(a))
  }

  /** `static_cast<char>` of an `int`, as a byte. */
  function ByteOf(value: int): char {
    (value % 256) as char
  }

  function Prepend(out: string, rest: Option<string>): Option<string> {
    if rest.None? then None else Some(out + rest.value)
  }

  function Decode(s: string): Option<string> {
    if s == "" then Some("")
    else if s[0] == '%' then
      if |s| < 3 || HexField(s[1], s[2]).None? then None
      else Prepend([ByteOf(HexField(s[1], s[2]).value)], Decode(s[3..]))
    else if s[0] == '+' then Prepend(" ", Decode(s[1..]))
    else Prepend([s[0]], Decode(s[1..]))
  }

  lemma PrependTwice(a: string, b: string, rest: Option<string>)
    ensures Prepend(a, Prepend(b, rest)) == Prepend(a + b, rest)
  {
    if rest.Some? {
      assert a + (b + rest.value) == a + b + rest.value;
    }
  }

  method UrlDecode(input: string) returns (ok: bool, out: string)
    ensures ok <==> Decode(input).Some?
    ensures ok ==> out == Decode(input).value
  {
    out := "";
    var i := 0;
    assert input[0..] == input;
    assert Decode(input).Some? ==> "" + Decode(input).value == Decode(input).value;
    while i < |input|
      invariant 0 <= i <= |input|
      invariant Decode(input) == Prepend(out, Decode(input[i..]))
    {
      ghost var rest := input[i..];
      if input[i] == '%' {
        if i + 3 <= |input| {
          var value := HexField(input[i + 1], input[i + 2]);
          if value.Some? {
            PrependTwice(out, [ByteOf(value.value)], Decode(rest[3..]));
            assert rest[3..] == input[i + 3..];
            out := out + [ByteOf(value.value)];
            i := i + 2;
          } else {
            return false, out;
          }
        } else {
          return false, out;
        }
      } else if input[i] == '+' {
        PrependTwice(out, " ", Decode(rest[1..]));
        assert rest[1..] == input[i + 1..];
        out := out + " ";
      } else {
        PrependTwice(out, [input[i]], Decode(rest[1..]));
        assert rest[1..] == input[i + 1..];
        out := out + [input[i]];
      }
      i := i + 1;
    }
    assert input[i..] == "" && out + "" == out;
    ok := true;
  }

  /** Decoding goes through piece by piece: once `a` decodes, `a + b` decodes to the decoding of
      `a` followed by that of `b`, and fails only where `b` does. */
  lemma {:induction false} DecodeAppend(a: string, b: string)
    requires Decode(a).Some?
    ensures Decode(a + b) == Prepend(Decode(a).value, Decode(b))
    decreases |a|
  {
    if a == "" {
      assert a + b == b;
      assert Decode(b).Some? ==> "" + Decode(b).value == Decode(b).value;
    } else {
      var n := if a[0] == '%' then 3 else 1;
      var head := if a[0] == '%' then [ByteOf(HexField(a[1], a[2]).value)] else if a[0] == '+' then " " else [a[0]];
      assert (a + b)[n..] == a[n..] + b;
      DecodeAppend(a[n..], b);
      PrependTwice(head, Decode(a[n..]).value, Decode(b));
    }
  }

  /** The number of escapes the decoder meets. */
  function Escapes(s: string): nat {
    if s == "" then 0
    else if s[0] == '%' && |s| >= 3 then 1 + Escapes(s[3..])
    else Escapes(s[1..])
  }

  lemma {:induction false} DecodedLength(s: string)
    requires Decode(s).Some?
    ensures |Decode(s).value| == |s| - 2 * Escapes(s)
    decreases |s|
  {
    if s != "" {
      DecodedLength(s[if s[0] == '%' then 3 else 1..]);
    }
  }

  /** An escape the decoder cannot read. */
  predicate BadEscape(t: string) {
    t != "" && t[0] == '%' && (|t| < 3 || HexField(t[1], t[2]).None?)
  }

  lemma BadEscapeFails(s: string, i: nat)
    requires i <= |s| && Decode(s[..i]).Some? && BadEscape(s[i..])
    ensures Decode(s).None?
  {
    DecodeAppend(s[..i], s[i..]);
    assert s[..i] + s[i..] == s;
  }

  lemma {:induction false} FailureHasBadEscape(s: string) returns (i: nat)
    requires Decode(s).None?
    ensures i <= |s| && Decode(s[..i]).Some? && BadEscape(s[i..])
    decreases |s|
  {
    if BadEscape(s) {
      i := 0;
      assert s[..0] == "" && s[0..] == s;
    } else {
      var n := if s[0] == '%' then 3 else 1;
      var j := FailureHasBadEscape(s[n..]);
      i := n + j;
      assert s[n..][j..] == s[i..];
      assert s[..i][n..] == s[n..][..j];
    }
  }

  /** Decoding fails exactly when the part behind some readable prefix starts with an unreadable
      escape. */
  lemma DecodeFailsAtBadEscape(s: string)
    ensures Decode(s).None? <==> exists i :: 0 <= i <= |s| && Decode(s[..i]).Some? && BadEscape(s[i..])
  {
    forall i | 0 <= i <= |s| && Decode(s[..i]).Some? && BadEscape(s[i..])
      ensures Decode(s).None?
    {
      BadEscapeFails(s, i);
    }
    if Decode(s).None? {
      var i := FailureHasBadEscape(s);
    }
  }

  // ---- The encoder

  function HexChar(d: nat): (c: char)
    requires d < 16
    ensures IsHex(c) && HexValue(c) == d
  {
    if d < 10 then ('0' as int + d) as char else ('A' as int + (d - 10)) as char
  }

  predicate Bytes(s: string) {
    forall i | 0 <= i < |s| :: s[i] as int < 256
  }

  /** The text of one byte. `kept` are the bytes the encoder leaves as they are. */
  function EncodeByte(kept: set<char>, c: char): string
    requires c as int < 256
  {
    if c == ' ' then "+"
    else if c in kept then [c]
    else ['%', HexChar(c as int / 16), HexChar(c as int % 16)]
  }

  function Encode(kept: set<char>, s: string): string
    requires Bytes(s)
  {
    if s == "" then "" else EncodeByte(kept, s[0]) + Encode(kept, s[1..])
  }

  /** Whatever bytes the encoder keeps, other than its two special ones, decoding undoes it. */
  lemma {:induction false} DecodeEncode(kept: set<char>, s: string)
    requires Bytes(s) && '%' !in kept && '+' !in kept
    ensures Decode(Encode(kept, s)) == Some(s)
  {
    if s != "" {
      var c := s[0];
      var head := EncodeByte(kept, c);
      DecodeEncode(kept, s[1..]);
      DecodeEncodedByte(kept, c);
      DecodeAppend(head, Encode(kept, s[1..]));
      assert [c] + s[1..] == s;
    }
  }

  lemma DecodeEncodedByte(kept: set<char>, c: char)
    requires c as int < 256 && '%' !in kept && '+' !in kept
    ensures Decode(EncodeByte(kept, c)) == Some([c])
  {
    var head := EncodeByte(kept, c);
    assert [c] + "" == [c];
    if c == ' ' || c in kept {
      assert head[1..] == "";
    } else {
      assert head[3..] == "";
      assert HexField(head[1], head[2]) == Some(c as int);
    }
  }

  /** An encoder that keeps no space and no control character produces a valid request URI. */
  lemma {:induction false} EncodedIsUriText(kept: set<char>, s: string)
    requires Bytes(s) && forall c | c in kept :: c != ' ' && !IsCtl(c)
    ensures UriText(Encode(kept, s))
  {
    if s != "" {
      EncodedIsUriText(kept, s[1..]);
      assert UriText(EncodeByte(kept, s[0]));
    }
  }

  // ---- Escapes, written out

  /** `c` is the hexadecimal digit for `v`, in either case. */
  predicate HexDigitAt(c: char, v: nat) {
    v < 16 && (c == "0123456789abcdef"[v] || c == "0123456789ABCDEF"[v])
  }

  lemma HexDigits(c: char, v: nat)
    ensures HexDigitAt(c, v) <==> IsHex(c) && HexValue(c) == v
  {
  }

  lemma HexDigitOf(c: char)
    ensures IsHex(c) <==> exists v :: HexDigitAt(c, v)
  {
    if IsHex(c) {
      HexDigits(c, HexValue(c));
    }
    forall v | HexDigitAt(c, v) ensures IsHex(c) {
      HexDigits(c, v);
    }
  }

  /** Two hexadecimal digits, in either case, stand for the byte of their value. */
  lemma TwoDigitEscape(a: char, i: nat, b: char, j: nat, rest: string)
    requires HexDigitAt(a, i) && HexDigitAt(b, j)
    ensures Decode("%" + [a, b] + rest) == Prepend([(16 * i + j) as char], Decode(rest))
  {
    HexDigits(a, i);
    HexDigits(b, j);
    EscapeStep(a, b, rest);
  }

  lemma EscapeStep(a: char, b: char, rest: string)
    ensures Decode("%" + [a, b] + rest)
         == if HexField(a, b).None? then None else Prepend([ByteOf(HexField(a, b).value)], Decode(rest))
  {
    var s := "%" + [a, b] + rest;
    assert s[3..] == rest;
  }

  /** One digit behind white space or a sign counts alone, a minus counts down from 256. */
  lemma SignedEscape(a: char, b: char, j: nat, rest: string)
    requires a in " \t\n\U{0B}\U{0C}\r+-" && HexDigitAt(b, j)
    ensures Decode("%" + [a, b] + rest)
         == Prepend([(if a == '-' && j > 0 then 256 - j else j) as char], Decode(rest))
  {
    HexDigits(b, j);
    EscapeStep(a, b, rest);
  }

  /** A digit in front of something else counts alone, unless it is the zero of `0x`. */
  lemma OneDigitEscape(a: char, i: nat, b: char, rest: string)
    requires HexDigitAt(a, i) && !exists v :: HexDigitAt(b, v)
    ensures Decode("%" + [a, b] + rest)
         == if a == '0' && b in "xX" then None else Prepend([i as char], Decode(rest))
  {
    HexDigits(a, i);
    HexDigitOf(b);
    EscapeStep(a, b, rest);
  }

  /** Without a digit in the right place the escape is unreadable, and so it is cut short. */
  lemma UnreadableEscape(a: char, b: char, rest: string)
    requires !(exists v :: HexDigitAt(a, v))
    requires a in " \t\n\U{0B}\U{0C}\r+-" ==> !exists v :: HexDigitAt(b, v)
    ensures Decode("%" + [a, b] + rest).None? && Decode("%" + [a]).None? && Decode("%").None?
  {
    HexDigitOf(a);
    HexDigitOf(b);
    EscapeStep(a, b, rest);
  }

  /** Outside escapes a plus is a space, and everything else stands for itself. */
  lemma PlainCharacter(c: char, rest: string)
    requires c != '%'
    ensures Decode([c] + rest) == Prepend(if c == '+' then " " else [c], Decode(rest))
  {
    assert ([c] + rest)[1..] == rest;
  }
}
