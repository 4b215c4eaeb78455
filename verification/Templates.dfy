/** Replacing the keys one after the other is one simultaneous substitution, for texts built from
    literals and marks. */
module Templates {
  import opened Options
  import opened Substitution

  /** A text with marked places: literals, with a `%key%` mark between each two. */
  datatype Template = End(lit: string) | Hole(lit: string, key: string, rest: Template)

  function Text(t: Template): string {
    match t
    case End(lit) => lit
    case Hole(lit, key, rest) => lit + Mark(key) + Text(rest)
  }

  predicate Plain(s: string) {
    '%' !in s
  }

  lemma {:induction false} PlainPercents(s: string)
    requires Plain(s)
    ensures Percents(s) == 0
  {
    if s != "" {
      PlainPercents(s[1..]);
    }
  }

  predicate WellFormed(t: Template) {
    match t
    case End(lit) => Plain(lit)
    case Hole(lit, key, rest) => Plain(lit) && Plain(key) && WellFormed(rest)
  }

  /** `k` can be read as the literal of `t`, or as that literal, anything that a key of `keys` is
      replaced by, and what can be read behind its mark; every literal that is used stands in front
      of a mark. */
  predicate Fits(k: string, t: Template, keys: set<string>) {
    && t.Hole?
    && (k == t.lit
        || (t.key in keys && exists n | |t.lit| <= n <= |k| :: t.lit <= k && Fits(k[n..], t.rest, keys)))
  }

  /** However marks of the keys are filled, the text between two marks that are left is no key, but
      for the key of the first of the two. */
  predicate Separated(t: Template, keys: set<string>) {
    t.Hole? ==> Separated(t.rest, keys) && forall k | k in keys && k != t.key :: !Fits(k, t.rest, keys)
  }

  /** A literal between two marks, in front of the first mark of `key`, equals the key: between
      the '%'s of its neighbours it looks like the mark. */
  predicate Intruder(t: Template, key: string) {
    t.Hole? && t.key != key && t.rest.Hole? && (t.rest.lit == key || Intruder(t.rest, key))
  }

  /** The text with every mark of a known key replaced at once; values are not looked at again. */
  function Filled(t: Template, values: map<string, string>): string {
    match t
    case End(lit) => lit
    case Hole(lit, key, rest) => lit + (if key in values then values[key] else Mark(key)) + Filled(rest, values)
  }

  // ---- One mark

  predicate HasHole(t: Template, key: string) {
    t.Hole? && (t.key == key || HasHole(t.rest, key))
  }

  /** Where the first mark of `key` starts. */
  function HolePosition(t: Template, key: string): nat
    requires HasHole(t, key)
  {
    if t.key == key then |t.lit| else |t.lit| + |Mark(t.key)| + HolePosition(t.rest, key)
  }

  function Prefixed(s: string, t: Template): Template {
    t.(lit := s + t.lit)
  }

  /** The template with the first mark of `key` replaced. */
  function FillFirst(t: Template, key: string, value: string): Template
    requires HasHole(t, key)
  {
    if t.key == key then Prefixed(t.lit + value, t.rest) else t.(rest := FillFirst(t.rest, key, value))
  }

  function HoleCount(t: Template, key: string): nat {
    if t.End? then 0 else (if t.key == key then 1 else 0) + HoleCount(t.rest, key)
  }

  lemma MarkAt(text: string, key: string, i: nat)
    ensures OccursAt(text, Mark(key), i)
       <==> i + |key| + 2 <= |text| && text[i] == '%' && text[i + 1..i + 1 + |key|] == key && text[i + 1 + |key|] == '%'
  {
    if i + |key| + 2 <= |text| {
      var slice := text[i..i + |key| + 2];
      assert |Mark(key)| == |key| + 2;
      assert slice == [text[i]] + text[i + 1..i + 1 + |key|] + [text[i + 1 + |key|]];
      assert slice == Mark(key) ==> slice[0] == '%' && slice[1..|key| + 1] == key && slice[|key| + 1] == '%';
    }
  }

  /** Two texts without '%', each followed by one, are equal if one such text starts with the
      other. */
  lemma SamePlain(a: string, b: string, after: string, text: string)
    requires Plain(a) && Plain(b) && text == b + "%" + after
    requires |a| < |text| && text[..|a|] == a && text[|a|] == '%'
    ensures a == b
  {
    assert forall i | 0 <= i < |b| :: text[i] == b[i] != '%';
    assert forall i | 0 <= i < |a| :: text[i] == text[..|a|][i] != '%';
    assert text[|b|] == '%';
    assert text[..|b|] == b;
  }

  /** The closing '%' of a mark opens another one only if the literal behind it is the key. */
  lemma KeyBetween(t: Template, key: string)
    requires WellFormed(t) && Plain(key)
    requires |key| < |Text(t)| && Text(t)[..|key|] == key && Text(t)[|key|] == '%'
    ensures t.Hole? && t.lit == key
  {
    var text := Text(t);
    match t {
      case End(lit) => assert false;
      case Hole(lit, k, rest) =>
        assert text == lit + "%" + (k + "%" + Text(rest));
        SamePlain(key, lit, k + "%" + Text(rest), text);
    }
  }

  /** A mark that occurs where a mark of the template starts is that mark. */
  lemma OccurrenceAtOpening(lit: string, k: string, tail: string, key: string)
    requires Plain(k) && Plain(key)
    requires OccursAt(lit + Mark(k) + tail, Mark(key), |lit|)
    ensures k == key
  {
    var text := lit + Mark(k) + tail;
    var after := text[|lit| + 1..];
    MarkAt(text, key, |lit|);
    assert after == k + "%" + tail;
    assert after[..|key|] == text[|lit| + 1..|lit| + 1 + |key|];
    SamePlain(key, k, tail, after);
  }

  lemma OccurrenceAtClosing(lit: string, k: string, rest: Template, key: string)
    requires WellFormed(rest) && Plain(key)
    requires OccursAt(lit + Mark(k) + Text(rest), Mark(key), |lit| + 1 + |k|)
    ensures rest.Hole? && rest.lit == key
  {
    var text, i := lit + Mark(k) + Text(rest), |lit| + 1 + |k|;
    MarkAt(text, key, i);
    assert text[i + 1..] == Text(rest);
    assert Text(rest)[..|key|] == text[i + 1..i + 1 + |key|] && Text(rest)[|key|] == text[i + 1 + |key|];
    KeyBetween(rest, key);
  }

  /** Marks of a key occur in the first part of a text only where the template has them, or where
      the literal behind the first mark is the key. */
  lemma OccurrenceInFirst(t: Template, key: string, i: nat)
    requires t.Hole? && WellFormed(t) && Plain(key)
    requires OccursAt(Text(t), Mark(key), i) && i < |t.lit + Mark(t.key)|
    ensures if i == |t.lit| then t.key == key else i > |t.lit| && t.rest.Hole? && t.rest.lit == key
  {
    var front := t.lit + Mark(t.key);
    MarkAt(Text(t), key, i);
    assert Text(t)[i] == front[i];
    assert front[i] == '%' ==> i == |t.lit| || i == |t.lit| + 1 + |t.key|;
    if i == |t.lit| {
      OccurrenceAtOpening(t.lit, t.key, Text(t.rest), key);
    } else {
      OccurrenceAtClosing(t.lit, t.key, t.rest, key);
    }
  }

  lemma OccursBehind(front: string, text: string, pattern: string, i: nat)
    ensures OccursAt(front + text, pattern, |front| + i) <==> OccursAt(text, pattern, i)
  {
    if i + |pattern| <= |text| {
      assert (front + text)[|front| + i..|front| + i + |pattern|] == text[i..i + |pattern|];
    }
  }

  ghost predicate FirstAt(text: string, pattern: string, p: nat) {
    OccursAt(text, pattern, p) && forall j: nat | j < p :: !OccursAt(text, pattern, j)
  }

  ghost predicate Nowhere(text: string, pattern: string) {
    forall j: nat :: !OccursAt(text, pattern, j)
  }

  lemma OccursAtOpening(lit: string, key: string, back: string)
    ensures OccursAt(lit + Mark(key) + back, Mark(key), |lit|)
  {
    assert (lit + Mark(key) + back)[|lit|..|lit| + |Mark(key)|] == Mark(key);
  }

  /** Without an intruder, the first occurrence of a mark in the text is the first such mark of
      the template. */
  lemma {:induction false} FirstOccurrence(t: Template, key: string)
    requires WellFormed(t) && Plain(key) && !Intruder(t, key)
    ensures !HasHole(t, key) ==> Nowhere(Text(t), Mark(key))
    ensures HasHole(t, key) ==> FirstAt(Text(t), Mark(key), HolePosition(t, key))
  {
    match t {
      case End(lit) =>
        forall i: nat ensures !OccursAt(lit, Mark(key), i) {
          MarkAt(lit, key, i);
        }
      case Hole(lit, k, rest) =>
        var front := lit + Mark(k);
        forall i: nat | i < |front| && OccursAt(Text(t), Mark(key), i) ensures k == key && i >= |lit| {
          OccurrenceInFirst(t, key, i);
        }
        if k == key {
          OccursAtOpening(lit, key, Text(rest));
        } else {
          FirstOccurrence(rest, key);
          forall i: nat ensures OccursAt(Text(t), Mark(key), |front| + i) <==> OccursAt(Text(rest), Mark(key), i) {
            OccursBehind(front, Text(rest), Mark(key), i);
          }
          FirstBehind(Text(t), Mark(key), |front|, Text(rest),
                      if HasHole(rest, key) then Some(HolePosition(rest, key)) else None);
        }
    }
  }

  lemma OccursAtClosing(lit: string, k: string, key: string, l: string, back: string)
    ensures OccursAt(lit + Mark(k) + (key + Mark(l) + back), Mark(key), |lit| + 1 + |k|)
  {
    var front, behind := lit + "%" + k, l + "%" + back;
    assert lit + Mark(k) + (key + Mark(l) + back) == front + Mark(key) + behind;
    assert (front + Mark(key) + behind)[|front|..|front| + |Mark(key)|] == Mark(key);
  }

  /** An intruder is found before the first mark of the template. */
  lemma {:induction false} IntruderOccurs(t: Template, key: string) returns (i: nat)
    requires Intruder(t, key)
    ensures OccursAt(Text(t), Mark(key), i) && (HasHole(t, key) ==> i < HolePosition(t, key))
  {
    var rest := t.rest;
    if rest.lit == key {
      i := |t.lit| + 1 + |t.key|;
      OccursAtClosing(t.lit, t.key, key, rest.key, Text(rest.rest));
    } else {
      var j := IntruderOccurs(rest, key);
      i := |t.lit + Mark(t.key)| + j;
      OccursBehind(t.lit + Mark(t.key), Text(rest), Mark(key), j);
    }
  }

  /** What occurs only from `n` on occurs first where it first occurs in the part from `n` on. */
  lemma FirstBehind(text: string, pattern: string, n: nat, back: string, first: Option<nat>)
    requires forall i: nat | i < n :: !OccursAt(text, pattern, i)
    requires forall i: nat :: OccursAt(text, pattern, n + i) <==> OccursAt(back, pattern, i)
    requires if first.Some? then FirstAt(back, pattern, first.value) else Nowhere(back, pattern)
    ensures if first.Some? then FirstAt(text, pattern, n + first.value) else Nowhere(text, pattern)
  {
    forall j: nat | OccursAt(text, pattern, j)
      ensures first.Some? && n + first.value <= j
    {
      assert j >= n && n + (j - n) == j;
      assert OccursAt(back, pattern, j - n);
    }
  }

  lemma FindIsFirst(text: string, pattern: string, first: Option<nat>)
    requires if first.Some? then FirstAt(text, pattern, first.value) else Nowhere(text, pattern)
    ensures Find(text, pattern) == first
  {
  }

  /** `find` finds the first mark of the template, or nothing if it has none. */
  predicate FindsOwnMark(t: Template, key: string) {
    Find(Text(t), Mark(key)) == if HasHole(t, key) then Some(HolePosition(t, key)) else None
  }

  /** It does if and only if there is no intruder. */
  lemma FindInTemplate(t: Template, key: string)
    requires WellFormed(t) && Plain(key)
    ensures FindsOwnMark(t, key) <==> !Intruder(t, key)
  {
    if Intruder(t, key) {
      var i := IntruderOccurs(t, key);
    } else {
      FirstOccurrence(t, key);
      FindIsFirst(Text(t), Mark(key), if HasHole(t, key) then Some(HolePosition(t, key)) else None);
    }
  }

  /** One round of the loop is `FillFirst` on the template. */
  lemma RoundFillsFirst(t: Template, key: string, value: string)
    requires WellFormed(t) && Plain(key) && HasHole(t, key) && !Intruder(t, key)
    ensures Find(Text(t), Mark(key)).Some? && ReplaceFirst(Text(t), key, value) == Text(FillFirst(t, key, value))
  {
    assert Find(Text(t), Mark(key)) == Some(HolePosition(t, key)) by {
      FindInTemplate(t, key);
    }
    var front, back := FillFirstText(t, key, value);
    ReplaceFirstAt(Text(t), key, value, front, back);
  }

  lemma ReplaceFirstAt(text: string, key: string, value: string, front: string, back: string)
    requires Find(text, Mark(key)) == Some(|front|) && text == front + Mark(key) + back
    ensures ReplaceFirst(text, key, value) == front + value + back
  {
  }

  /** `FillFirst` replaces the first mark of the template in its text. */
  lemma {:induction false} FillFirstText(t: Template, key: string, value: string)
    returns (front: string, back: string)
    requires HasHole(t, key)
    ensures |front| == HolePosition(t, key) && Text(t) == front + Mark(key) + back
    ensures Text(FillFirst(t, key, value)) == front + value + back
  {
    if t.key == key {
      front, back := t.lit, Text(t.rest);
      PrefixedText(t.lit + value, t.rest);
    } else {
      var f, b := FillFirstText(t.rest, key, value);
      var first := t.lit + Mark(t.key);
      front, back := first + f, b;
      Regroup(first, f, Mark(key), b);
      Regroup(first, f, value, b);
    }
  }

  lemma Regroup(a: string, b: string, c: string, d: string)
    ensures a + (b + c + d) == (a + b) + c + d
  {
  }

  lemma PrefixedText(s: string, t: Template)
    ensures Text(Prefixed(s, t)) == s + Text(t)
  {
    if t.Hole? {
      assert (s + t.lit) + Mark(t.key) + Text(t.rest) == s + (t.lit + Mark(t.key) + Text(t.rest));
    }
  }

  // ---- What keeps the marks apart

  lemma {:induction false} SeparatedHasNoIntruder(t: Template, key: string, keys: set<string>)
    requires Separated(t, keys) && key in keys
    ensures !Intruder(t, key)
  {
    if t.Hole? {
      SeparatedHasNoIntruder(t.rest, key, keys);
    }
  }

  /** `u` is `t` with some marks of the keys replaced by plain values, whichever and in whatever
      order. */
  ghost predicate PartlyFilled(t: Template, u: Template, keys: set<string>) {
    if t.End? then u == t
    else
      || (u.Hole? && u.lit == t.lit && u.key == t.key && PartlyFilled(t.rest, u.rest, keys))
      || (t.key in keys && exists v, r :: FillsFront(t, v, r, u) && PartlyFilled(t.rest, r, keys))
  }

  predicate FillsFront(t: Template, v: string, r: Template, u: Template)
    requires t.Hole?
  {
    Plain(v) && u == Prefixed(t.lit + v, r)
  }

  lemma {:induction false} FitsBeforeFilling(k: string, t: Template, u: Template, keys: set<string>)
    requires PartlyFilled(t, u, keys) && Fits(k, u, keys)
    ensures Fits(k, t, keys)
    decreases t
  {
    if u.lit == t.lit && u.key == t.key && PartlyFilled(t.rest, u.rest, keys) {
      if k != t.lit {
        var n :| |t.lit| <= n <= |k| && Fits(k[n..], u.rest, keys);
        FitsBeforeFilling(k[n..], t.rest, u.rest, keys);
      }
    } else {
      var v, r :| FillsFront(t, v, r, u) && PartlyFilled(t.rest, r, keys);
      var n := |t.lit + v|;
      assert t.lit <= u.lit <= k;
      assert k[n..][..|r.lit|] == r.lit;
      if k != u.lit {
        var m :| |u.lit| <= m <= |k| && Fits(k[m..], u.rest, keys);
        assert k[n..][m - n..] == k[m..];
      }
      FitsBeforeFilling(k[n..], t.rest, r, keys);
    }
  }

  lemma {:induction false} FillingKeepsSeparated(t: Template, u: Template, keys: set<string>)
    requires PartlyFilled(t, u, keys) && WellFormed(t)
    ensures WellFormed(u) && (Separated(t, keys) ==> Separated(u, keys))
    decreases t
  {
    if t.Hole? {
      if u.Hole? && u.lit == t.lit && u.key == t.key && PartlyFilled(t.rest, u.rest, keys) {
        FillingKeepsSeparated(t.rest, u.rest, keys);
        forall k | Fits(k, u.rest, keys) ensures Fits(k, t.rest, keys) {
          FitsBeforeFilling(k, t.rest, u.rest, keys);
        }
      } else {
        var v, r :| FillsFront(t, v, r, u) && PartlyFilled(t.rest, r, keys);
        FillingKeepsSeparated(t.rest, r, keys);
      }
    }
  }

  lemma {:induction false} FilledByNone(t: Template, keys: set<string>)
    ensures PartlyFilled(t, t, keys)
  {
    if t.Hole? {
      FilledByNone(t.rest, keys);
    }
  }

  lemma {:induction false} FillFirstIsFilling(t: Template, key: string, value: string, keys: set<string>)
    requires HasHole(t, key) && Plain(value) && key in keys
    ensures PartlyFilled(t, FillFirst(t, key, value), keys)
  {
    if t.key == key {
      FilledByNone(t.rest, keys);
      assert FillsFront(t, value, t.rest, FillFirst(t, key, value));
    } else {
      FillFirstIsFilling(t.rest, key, value, keys);
    }
  }

  /** Replacing a mark by a plain value keeps the template well-formed and separated, and leaves
      one mark of the key fewer. */
  lemma FillFirstKeeps(t: Template, key: string, value: string, keys: set<string>)
    requires HasHole(t, key) && WellFormed(t) && Separated(t, keys) && Plain(value) && key in keys
    ensures WellFormed(FillFirst(t, key, value)) && Separated(FillFirst(t, key, value), keys)
    ensures HoleCount(FillFirst(t, key, value), key) + 1 == HoleCount(t, key)
  {
    FillFirstIsFilling(t, key, value, keys);
    FillingKeepsSeparated(t, FillFirst(t, key, value), keys);
    FillFirstCounts(t, key, value);
  }

  lemma PrefixMiddleRest(lit: string, k: string, n: nat)
    requires |lit| <= n <= |k| && lit <= k
    ensures lit + k[|lit|..n] + k[n..] == k
  {
  }

  /** What can be read at the front of a template can be put there. */
  lemma {:induction false} FitsCanBeFilled(k: string, t: Template, keys: set<string>) returns (u: Template)
    requires Fits(k, t, keys) && Plain(k)
    ensures PartlyFilled(t, u, keys) && u.Hole? && u.lit == k
    decreases t
  {
    if k == t.lit {
      FilledByNone(t, keys);
      u := t;
    } else {
      var n :| |t.lit| <= n <= |k| && Fits(k[n..], t.rest, keys);
      var v := k[|t.lit|..n];
      var r := FitsCanBeFilled(k[n..], t.rest, keys);
      PrefixMiddleRest(t.lit, k, n);
      u := Prefixed(t.lit + v, r);
      assert FillsFront(t, v, r, u);
    }
  }

  lemma {:induction false} UnseparatedLetsIntruderIn(t: Template, keys: set<string>) returns (u: Template, key: string)
    requires !Separated(t, keys) && forall k | k in keys :: Plain(k)
    ensures PartlyFilled(t, u, keys) && key in keys && Intruder(u, key)
  {
    if k :| k in keys && k != t.key && Fits(k, t.rest, keys) {
      var r := FitsCanBeFilled(k, t.rest, keys);
      u, key := t.(rest := r), k;
    } else {
      var r;
      r, key := UnseparatedLetsIntruderIn(t.rest, keys);
      if t.key in keys {
        u := Prefixed(t.lit + "", r);
        assert FillsFront(t, "", r, u);
      } else {
        u := t.(rest := r);
      }
    }
  }

  /** Marks are kept apart if and only if `find` goes to the template's own marks, whichever marks
      of the keys have been filled before and with whatever plain values. */
  lemma SeparatedIsExact(t: Template, keys: set<string>)
    requires WellFormed(t) && forall k | k in keys :: Plain(k)
    ensures Separated(t, keys) <==> forall u, k | PartlyFilled(t, u, keys) && k in keys :: FindsOwnMark(u, k)
  {
    if Separated(t, keys) {
      forall u, k | PartlyFilled(t, u, keys) && k in keys ensures FindsOwnMark(u, k) {
        FillingKeepsSeparated(t, u, keys);
        SeparatedHasNoIntruder(u, k, keys);
        FindInTemplate(u, k);
      }
    } else {
      var u, k := UnseparatedLetsIntruderIn(t, keys);
      FillingKeepsSeparated(t, u, keys);
      FindInTemplate(u, k);
    }
  }

  /** `s` holds a character that is in none of the keys. */
  predicate Foreign(s: string, keys: set<string>) {
    exists i :: 0 <= i < |s| && forall k | k in keys :: s[i] !in k
  }

  /** Every literal between two marks holds such a character. */
  predicate ForeignBetween(t: Template, keys: set<string>) {
    t.Hole? ==> (t.rest.Hole? ==> Foreign(t.rest.lit, keys)) && ForeignBetween(t.rest, keys)
  }

  lemma ForeignIsNoPrefix(s: string, keys: set<string>)
    ensures Foreign(s, keys) ==> forall k | k in keys :: !(s <= k)
  {
    forall k | k in keys && s <= k ensures !Foreign(s, keys) {
      forall i | 0 <= i < |s| ensures s[i] in k {
        assert s[i] == k[i];
      }
    }
  }

  /** A character that is in no key keeps two marks apart. */
  lemma {:induction false} ForeignSeparates(t: Template, keys: set<string>)
    requires ForeignBetween(t, keys)
    ensures Separated(t, keys)
  {
    if t.Hole? {
      ForeignSeparates(t.rest, keys);
      if t.rest.Hole? {
        ForeignIsNoPrefix(t.rest.lit, keys);
      }
    }
  }

  // ---- All marks of one key

  /** The template with every mark of `key` replaced. */
  function Fill(t: Template, key: string, value: string): Template
    decreases HoleCount(t, key), 0
  {
    if !HasHole(t, key) then t
    else
      assert HoleCount(FillFirst(t, key, value), key) < HoleCount(t, key) by { FillFirstCounts(t, key, value); }
      Fill(FillFirst(t, key, value), key, value)
  }

  lemma {:induction false} FillFirstCounts(t: Template, key: string, value: string)
    requires HasHole(t, key)
    ensures HoleCount(FillFirst(t, key, value), key) + 1 == HoleCount(t, key)
  {
    if t.key != key {
      FillFirstCounts(t.rest, key, value);
    }
  }

  lemma {:induction false} NoHolesCounted(t: Template, key: string)
    requires !HasHole(t, key)
    ensures HoleCount(t, key) == 0
  {
    if t.Hole? {
      NoHolesCounted(t.rest, key);
    }
  }

  lemma {:induction false} FillKeeps(t: Template, key: string, value: string, keys: set<string>)
    requires WellFormed(t) && Separated(t, keys) && Plain(value) && key in keys
    ensures WellFormed(Fill(t, key, value)) && Separated(Fill(t, key, value), keys)
    decreases HoleCount(t, key)
  {
    if HasHole(t, key) {
      FillFirstKeeps(t, key, value, keys);
      FillKeeps(FillFirst(t, key, value), key, value, keys);
    }
  }

  /** The loop for one key ends and leaves the text of the filled template. */
  lemma {:induction false} LoopFills(t: Template, key: string, value: string, keys: set<string>)
    requires WellFormed(t) && Separated(t, keys) && key in keys && Plain(key) && Plain(value)
    ensures StopsWithin(Text(t), key, value, HoleCount(t, key))
    ensures Rounds(Text(t), key, value, HoleCount(t, key)) == Text(Fill(t, key, value))
    decreases HoleCount(t, key)
  {
    if HasHole(t, key) {
      var u := FillFirst(t, key, value);
      FillFirstKeeps(t, key, value, keys);
      LoopFills(u, key, value, keys);
      LoopFillsFirst(t, key, value, keys, HoleCount(u, key));
    } else {
      LoopIsDone(t, key, value, keys);
    }
  }

  lemma LoopFillsFirst(t: Template, key: string, value: string, keys: set<string>, n: nat)
    requires WellFormed(t) && Separated(t, keys) && key in keys && Plain(key) && HasHole(t, key)
    ensures var next := Text(FillFirst(t, key, value));
            && Rounds(Text(t), key, value, n + 1) == Rounds(next, key, value, n)
            && (StopsWithin(Text(t), key, value, n + 1) <==> StopsWithin(next, key, value, n))
  {
    SeparatedHasNoIntruder(t, key, keys);
    RoundFillsFirst(t, key, value);
    RoundThenRest(Text(t), key, value, Text(FillFirst(t, key, value)), n);
  }

  lemma LoopIsDone(t: Template, key: string, value: string, keys: set<string>)
    requires WellFormed(t) && Separated(t, keys) && key in keys && Plain(key) && !HasHole(t, key)
    ensures HoleCount(t, key) == 0 && StopsWithin(Text(t), key, value, 0) && Fill(t, key, value) == t
  {
    SeparatedHasNoIntruder(t, key, keys);
    FindInTemplate(t, key);
    NoHolesCounted(t, key);
  }

  /** Filling by a plain value leaves the other keys to be filled as before. */
  lemma {:induction false} FilledAfterFillFirst(t: Template, key: string, value: string, values: map<string, string>)
    requires HasHole(t, key) && key !in values
    ensures Filled(FillFirst(t, key, value), values[key := value]) == Filled(t, values[key := value])
  {
    var vs := values[key := value];
    if t.key == key {
      PrefixedFilled(t.lit + value, t.rest, vs);
    } else {
      FilledAfterFillFirst(t.rest, key, value, values);
    }
  }

  lemma PrefixedFilled(s: string, t: Template, values: map<string, string>)
    ensures Filled(Prefixed(s, t), values) == s + Filled(t, values)
  {
    if t.Hole? {
      var v := if t.key in values then values[t.key] else Mark(t.key);
      assert (s + t.lit) + v + Filled(t.rest, values) == s + (t.lit + v + Filled(t.rest, values));
    }
  }

  lemma {:induction false} NoHoleNoMatter(t: Template, key: string, value: string, values: map<string, string>)
    requires !HasHole(t, key) && key !in values
    ensures Filled(t, values[key := value]) == Filled(t, values)
  {
    if t.Hole? {
      NoHoleNoMatter(t.rest, key, value, values);
    }
  }

  lemma {:induction false} FilledAfterFill(t: Template, key: string, value: string, values: map<string, string>)
    requires key !in values
    ensures Filled(Fill(t, key, value), values) == Filled(t, values[key := value])
    decreases HoleCount(t, key)
  {
    if HasHole(t, key) {
      FillFirstCounts(t, key, value);
      FilledAfterFillFirst(t, key, value, values);
      FilledAfterFill(FillFirst(t, key, value), key, value, values);
    } else {
      NoHoleNoMatter(t, key, value, values);
    }
  }

  lemma {:induction false} FilledByNothing(t: Template)
    ensures Filled(t, map[]) == Text(t)
  {
    if t.Hole? {
      FilledByNothing(t.rest);
    }
  }

  // ---- All keys

  predicate DistinctKeys(sets: seq<(string, string)>) {
    forall i, j | 0 <= i < j < |sets| :: sets[i].0 != sets[j].0
  }

  function AsMap(sets: seq<(string, string)>): map<string, string> {
    if sets == [] then map[] else AsMap(sets[1..])[sets[0].0 := sets[0].1]
  }

  lemma {:induction false} AsMapKeys(sets: seq<(string, string)>)
    ensures forall k :: k in AsMap(sets) <==> exists i :: 0 <= i < |sets| && sets[i].0 == k
  {
    if sets != [] {
      AsMapKeys(sets[1..]);
      forall k ensures k in AsMap(sets) <==> exists i :: 0 <= i < |sets| && sets[i].0 == k {
        if k in AsMap(sets[1..]) {
          var i :| 0 <= i < |sets[1..]| && sets[1..][i].0 == k;
          assert sets[i + 1].0 == k;
        }
        if i :| 0 <= i < |sets| && sets[i].0 == k {
          assert i > 0 ==> sets[1..][i - 1].0 == k;
        }
      }
    }
  }

  /** Key by key or all at once: for a well-formed template whose marks are kept apart, plain keys
      that are distinct and plain values, the loop over the keys ends and leaves the simultaneous
      substitution. */
  lemma {:induction false} SequentialIsSimultaneous(t: Template, sets: seq<(string, string)>, keys: set<string>)
    requires WellFormed(t) && Separated(t, keys) && DistinctKeys(sets)
    requires forall i | 0 <= i < |sets| :: sets[i].0 in keys && Plain(sets[i].0) && Plain(sets[i].1)
    ensures AllStop(Text(t), sets) && AllReplaced(Text(t), sets) == Filled(t, AsMap(sets))
    decreases |sets|
  {
    if sets == [] {
      FilledByNothing(t);
    } else {
      var (key, value) := sets[0];
      LoopFills(t, key, value, keys);
      FillKeeps(t, key, value, keys);
      var u := Fill(t, key, value);
      assert Replaced(Text(t), key, value) == Text(u);
      assert DistinctKeys(sets[1..]);
      SequentialIsSimultaneous(u, sets[1..], keys);
      AsMapKeys(sets[1..]);
      assert key !in AsMap(sets[1..]);
      FilledAfterFill(t, key, value, AsMap(sets[1..]));
    }
  }

  /** The order in which the keys come does not matter. */
  lemma OrderDoesNotMatter(t: Template, a: seq<(string, string)>, b: seq<(string, string)>, keys: set<string>)
    requires WellFormed(t) && Separated(t, keys) && DistinctKeys(a) && DistinctKeys(b)
    requires forall i | 0 <= i < |a| :: a[i].0 in keys && Plain(a[i].0) && Plain(a[i].1)
    requires multiset(a) == multiset(b)
    ensures AllStop(Text(t), a) && AllStop(Text(t), b)
    ensures AllReplaced(Text(t), a) == AllReplaced(Text(t), b)
  {
    forall i | 0 <= i < |b| ensures b[i] in a {
      assert b[i] in multiset(b);
    }
    forall i | 0 <= i < |a| ensures a[i] in b {
      assert a[i] in multiset(a);
    }
    SequentialIsSimultaneous(t, a, keys);
    SequentialIsSimultaneous(t, b, keys);
    SameMap(a, b);
  }

  lemma {:induction false} AsMapValue(sets: seq<(string, string)>, i: nat)
    requires DistinctKeys(sets) && i < |sets|
    ensures sets[i].0 in AsMap(sets) && AsMap(sets)[sets[i].0] == sets[i].1
    decreases |sets|
  {
    if i > 0 {
      assert DistinctKeys(sets[1..]);
      AsMapValue(sets[1..], i - 1);
    }
  }

  lemma SameMap(a: seq<(string, string)>, b: seq<(string, string)>)
    requires DistinctKeys(a) && DistinctKeys(b)
    requires (forall i | 0 <= i < |a| :: a[i] in b) && forall i | 0 <= i < |b| :: b[i] in a
    ensures AsMap(a) == AsMap(b)
  {
    AsMapKeys(a);
    AsMapKeys(b);
    forall k | k in AsMap(a) ensures k in AsMap(b) && AsMap(a)[k] == AsMap(b)[k] {
      var i :| 0 <= i < |a| && a[i].0 == k;
      var j :| 0 <= j < |b| && b[j] == a[i];
      AsMapValue(a, i);
      AsMapValue(b, j);
    }
    forall k | k in AsMap(b) ensures k in AsMap(a) {
      var j :| 0 <= j < |b| && b[j].0 == k;
      var i :| 0 <= i < |a| && a[i] == b[j];
      AsMapValue(a, i);
    }
  }
}
