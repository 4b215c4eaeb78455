/** Replacing the keys one after the other is one simultaneous substitution only for templates whose
    marks are kept apart: for all others some order of the keys and some plain values show it. */
module OrderOfKeys {
  import opened Options
  import opened Substitution
  import opened Templates

  // ---- A long run of characters inside a pair of '%'s

  predicate OddRunAt(text: string, n: nat, i: nat) {
    i + n <= |text| && Plain(text[i..i + n]) && Percents(text[..i]) % 2 == 1
  }

  /** `n` characters without '%' behind an odd number of '%'s: no mark of a shorter key can take
      them away. */
  ghost predicate OddRun(text: string, n: nat) {
    exists i: nat :: OddRunAt(text, n, i)
  }

  lemma PercentsUpTo(front: string, back: string, j: nat)
    requires j <= |back|
    ensures Percents((front + back)[..|front| + j]) == Percents(front) + Percents(back[..j])
  {
    assert (front + back)[..|front| + j] == front + back[..j];
    PercentsAppend(front, back[..j]);
  }

  lemma OddRunBehind(front: string, back: string, n: nat, j: nat)
    requires Percents(front) % 2 == 0
    ensures OddRunAt(front + back, n, |front| + j) <==> OddRunAt(back, n, j)
  {
    if j + n <= |back| {
      PercentsUpTo(front, back, j);
      assert (front + back)[|front| + j..|front| + j + n] == back[j..j + n];
    }
  }

  lemma PlainMarkPercents(key: string)
    requires Plain(key)
    ensures Percents(Mark(key)) == 2
  {
    MarkPercents(key);
    PlainPercents(key);
  }

  lemma RunMissesMark(text: string, key: string, n: nat, i: nat, p: nat)
    requires |key| < n && OddRunAt(text, n, i) && OccursAt(text, Mark(key), p)
    ensures i + n <= p || p + |Mark(key)| <= i
  {
    MarkAt(text, key, p);
    forall m | i <= m < i + n ensures text[m] != '%' {
      assert text[m] == text[i..i + n][m - i];
    }
  }

  /** A run behind the replaced mark stays one: two '%'s less in front of it. */
  lemma RunBehindMark(front: string, key: string, value: string, back: string, n: nat, j: nat)
    requires Plain(key) && Plain(value) && OddRunAt(front + Mark(key) + back, n, |front + Mark(key)| + j)
    ensures OddRunAt(front + value + back, n, |front + value| + j)
  {
    PercentsUpTo(front + Mark(key), back, j);
    PercentsUpTo(front + value, back, j);
    PercentsAppend(front, Mark(key));
    PercentsAppend(front, value);
    PlainMarkPercents(key);
    PlainPercents(value);
    var was, now := front + Mark(key) + back, front + value + back;
    assert was[|front + Mark(key)| + j..|front + Mark(key)| + j + n] == back[j..j + n];
    assert now[|front + value| + j..|front + value| + j + n] == back[j..j + n];
  }

  lemma RunInFront(front: string, s: string, t: string, back: string, n: nat, i: nat)
    requires i + n <= |front| && OddRunAt(front + s + back, n, i)
    ensures OddRunAt(front + t + back, n, i)
  {
    assert (front + s + back)[i..i + n] == front[i..i + n] == (front + t + back)[i..i + n];
    assert (front + s + back)[..i] == front[..i] == (front + t + back)[..i];
  }

  lemma RoundKeepsOddRun(text: string, key: string, value: string, n: nat)
    requires Plain(key) && |key| < n && Plain(value)
    requires Find(text, Mark(key)).Some? && OddRun(text, n)
    ensures OddRun(ReplaceFirst(text, key, value), n)
  {
    var p := Find(text, Mark(key)).value;
    var i: nat :| OddRunAt(text, n, i);
    RunMissesMark(text, key, n, i, p);
    var front, back := text[..p], text[p + |Mark(key)|..];
    assert text == front + Mark(key) + back;
    if i + n <= p {
      RunInFront(front, Mark(key), value, back, n, i);
    } else {
      RunBehindMark(front, key, value, back, n, i - |front + Mark(key)|);
    }
  }

  lemma {:induction false} RoundsKeepOddRun(text: string, key: string, value: string, m: nat, n: nat)
    requires Plain(key) && |key| < n && Plain(value) && OddRun(text, n)
    ensures OddRun(Rounds(text, key, value, m), n)
    decreases m
  {
    if m > 0 {
      var next := Round(text, key, value);
      AnyRoundKeepsOddRun(text, key, value, n);
      RoundsKeepOddRun(next, key, value, m - 1, n);
      assert Rounds(text, key, value, m) == Rounds(next, key, value, m - 1);
    }
  }

  lemma AnyRoundKeepsOddRun(text: string, key: string, value: string, n: nat)
    requires Plain(key) && |key| < n && Plain(value) && OddRun(text, n)
    ensures OddRun(Round(text, key, value), n)
  {
    if Find(text, Mark(key)).Some? {
      RoundKeepsOddRun(text, key, value, n);
    }
  }

  lemma PlainStops(text: string, key: string, value: string)
    requires Plain(value)
    ensures StopsWithin(text, key, value, Percents(text)) && Stops(text, key, value)
    ensures Replaced(text, key, value) == Rounds(text, key, value, Percents(text))
  {
    PlainPercents(value);
    FewPercentsStop(text, key, value);
  }

  lemma LoopKeepsOddRun(text: string, key: string, value: string, n: nat)
    requires Plain(key) && |key| < n && Plain(value) && OddRun(text, n)
    ensures Stops(text, key, value) && OddRun(Replaced(text, key, value), n)
  {
    PlainStops(text, key, value);
    RoundsKeepOddRun(text, key, value, Percents(text), n);
  }

  /** A long value that is put behind an odd number of '%'s makes such a run. */
  lemma OddRoundMakesRun(text: string, key: string, value: string, n: nat)
    requires Plain(value) && |value| >= n && Find(text, Mark(key)).Some?
    requires Percents(text[..Find(text, Mark(key)).value]) % 2 == 1
    ensures OddRun(ReplaceFirst(text, key, value), n)
  {
    var p := Find(text, Mark(key)).value;
    var next := ReplaceFirst(text, key, value);
    assert next[..p] == text[..p];
    assert next[p..p + n] == value[..n];
    assert OddRunAt(next, n, p);
  }

  lemma LoopMakesOddRun(text: string, key: string, value: string, n: nat)
    requires Plain(key) && |key| < n && Plain(value) && |value| >= n && Find(text, Mark(key)).Some?
    requires Percents(text[..Find(text, Mark(key)).value]) % 2 == 1
    ensures Stops(text, key, value) && OddRun(Replaced(text, key, value), n)
  {
    var next, m := ReplaceFirst(text, key, value), Percents(text);
    PlainStops(text, key, value);
    StartsWithPercent(text, key);
    OddRoundMakesRun(text, key, value, n);
    RoundsKeepOddRun(next, key, value, m - 1, n);
    RoundThenRest(text, key, value, next, m - 1);
  }

  lemma StartsWithPercent(text: string, key: string)
    requires Find(text, Mark(key)).Some?
    ensures Percents(text) >= 2
  {
    RoundPercents(text, key, "");
  }

  // ---- Filled templates have no such run

  predicate ShortKeys(t: Template, n: nat) {
    t.Hole? ==> |t.key| < n && ShortKeys(t.rest, n)
  }

  predicate PlainValues(values: map<string, string>) {
    forall k | k in values :: Plain(values[k])
  }

  lemma NoRunInPlain(front: string, back: string, n: nat, i: nat)
    requires Plain(front) && i <= |front|
    ensures !OddRunAt(front + back, n, i)
  {
    assert (front + back)[..i] == front[..i];
    PlainPercents(front[..i]);
  }

  lemma NoRunInMark(lit: string, key: string, back: string, n: nat, i: nat)
    requires Plain(lit) && Plain(key) && |key| < n && i < |lit + Mark(key)|
    ensures !OddRunAt(lit + Mark(key) + back, n, i)
  {
    var text := lit + Mark(key) + back;
    if i <= |lit| {
      assert text == lit + (Mark(key) + back);
      NoRunInPlain(lit, Mark(key) + back, n, i);
    } else if OddRunAt(text, n, i) {
      OccursAtOpening(lit, key, back);
      RunMissesMark(text, key, n, i, |lit|);
    }
  }

  lemma NoRunInParts(lit: string, key: string, x: string, back: string, n: nat, i: nat)
    requires Plain(lit) && Plain(key) && |key| < n && (Plain(x) || x == Mark(key))
    requires i >= |lit + x| ==> !OddRunAt(back, n, i - |lit + x|)
    ensures !OddRunAt(lit + x + back, n, i)
  {
    if i >= |lit + x| {
      EvenFront(lit, key, x);
      OddRunBehind(lit + x, back, n, i - |lit + x|);
    } else if Plain(x) {
      NoRunInPlain(lit + x, back, n, i);
    } else {
      NoRunInMark(lit, key, back, n, i);
    }
  }

  lemma {:induction false} NoRunInFilled(t: Template, values: map<string, string>, n: nat, i: nat)
    requires WellFormed(t) && ShortKeys(t, n) && PlainValues(values)
    ensures !OddRunAt(Filled(t, values), n, i)
  {
    if t.End? {
      if i <= |t.lit| {
        NoRunInPlain(t.lit, "", n, i);
        assert t.lit + "" == t.lit;
      }
    } else {
      var x := if t.key in values then values[t.key] else Mark(t.key);
      if i >= |t.lit + x| {
        NoRunInFilled(t.rest, values, n, i - |t.lit + x|);
      }
      NoRunInParts(t.lit, t.key, x, Filled(t.rest, values), n, i);
    }
  }

  lemma EvenFront(lit: string, key: string, x: string)
    requires Plain(lit) && Plain(key) && (Plain(x) || x == Mark(key))
    ensures Percents(lit + x) % 2 == 0
  {
    PercentsAppend(lit, x);
    PlainPercents(lit);
    if Plain(x) {
      PlainPercents(x);
    } else {
      PlainMarkPercents(key);
    }
  }

  lemma FilledHasNoOddRun(t: Template, values: map<string, string>, n: nat)
    requires WellFormed(t) && ShortKeys(t, n) && PlainValues(values)
    ensures !OddRun(Filled(t, values), n)
  {
    forall i: nat ensures !OddRunAt(Filled(t, values), n, i) {
      NoRunInFilled(t, values, n, i);
    }
  }

  // ---- An intruder makes one

  /** An occurrence in front of the first mark of the template lies behind an odd number of '%'s. */
  lemma {:induction false} StrayIsOdd(t: Template, key: string, p: nat)
    requires WellFormed(t) && Plain(key) && OccursAt(Text(t), Mark(key), p)
    requires HasHole(t, key) ==> p < HolePosition(t, key)
    ensures Percents(Text(t)[..p]) % 2 == 1
  {
    MarkAt(Text(t), key, p);
    if t.Hole? {
      var front, back := t.lit + Mark(t.key), Text(t.rest);
      if p < |front| {
        OccurrenceInFirst(t, key, p);
        StrayInFirst(t.lit, t.key, back, p);
      } else {
        var q := p - |front|;
        OccursBehind(front, back, Mark(key), q);
        StrayIsOdd(t.rest, key, q);
        StrayBehind(t, q);
      }
    }
  }

  lemma StrayBehind(t: Template, q: nat)
    requires t.Hole? && Plain(t.lit) && Plain(t.key) && q <= |Text(t.rest)|
    ensures |t.lit + Mark(t.key)| + q <= |Text(t)|
    ensures Percents(Text(t)[..|t.lit + Mark(t.key)| + q]) == 2 + Percents(Text(t.rest)[..q])
  {
    PercentsBehindMark(t.lit, t.key, Text(t.rest), q);
  }

  lemma PercentsBehindMark(lit: string, key: string, back: string, j: nat)
    requires Plain(lit) && Plain(key) && j <= |back|
    ensures Percents((lit + Mark(key) + back)[..|lit + Mark(key)| + j]) == 2 + Percents(back[..j])
  {
    PercentsAppend(lit, Mark(key));
    PlainPercents(lit);
    PlainMarkPercents(key);
    PercentsUpTo(lit + Mark(key), back, j);
  }

  lemma StrayInFirst(lit: string, k: string, back: string, p: nat)
    requires Plain(lit) && Plain(k) && |lit| < p < |lit + Mark(k)|
    requires (lit + Mark(k) + back)[p] == '%'
    ensures Percents((lit + Mark(k) + back)[..p]) == 1
  {
    var text := lit + Mark(k) + back;
    assert text == (lit + "%" + k) + ("%" + back);
    forall j | |lit| < j < |lit + "%" + k| ensures text[j] != '%' {
      assert text[j] == k[j - |lit| - 1];
    }
    assert text[..p] == lit + "%" + k;
    PercentsAppend(lit + "%", k);
    PercentsAppend(lit, "%");
    PlainPercents(lit);
    PlainPercents(k);
  }

  lemma IntruderMakesOddRun(t: Template, key: string, value: string, n: nat)
    requires WellFormed(t) && Plain(key) && |key| < n && Intruder(t, key) && Plain(value) && |value| >= n
    ensures Stops(Text(t), key, value) && OddRun(Replaced(Text(t), key, value), n)
  {
    var i := IntruderOccurs(t, key);
    var p := Find(Text(t), Mark(key)).value;
    StrayIsOdd(t, key, p);
    LoopMakesOddRun(Text(t), key, value, n);
  }

  // ---- How a template that is not separated goes wrong

  /** No key has two marks. */
  predicate Linear(t: Template, keys: set<string>) {
    t.Hole? ==> (t.key in keys ==> !HasHole(t.rest, t.key)) && Linear(t.rest, keys)
  }

  lemma {:induction false} FillFirstHoles(t: Template, c: string, x: string, k: string)
    requires HasHole(t, c)
    ensures k != c ==> (HasHole(FillFirst(t, c, x), k) <==> HasHole(t, k))
  {
    if t.key != c {
      FillFirstHoles(t.rest, c, x, k);
    }
  }

  lemma {:induction false} FilledOnce(t: Template, c: string, x: string, keys: set<string>)
    requires HasHole(t, c) && c in keys && Linear(t, keys)
    ensures !HasHole(FillFirst(t, c, x), c)
    ensures Linear(FillFirst(t, c, x), keys - {c})
  {
    if t.key == c {
      LinearForFewer(t.rest, keys, c);
    } else {
      FilledOnce(t.rest, c, x, keys);
      FillFirstHoles(t.rest, c, x, t.key);
    }
  }

  lemma {:induction false} LinearForFewer(t: Template, keys: set<string>, c: string)
    requires Linear(t, keys)
    ensures Linear(t, keys - {c})
  {
    if t.Hole? {
      LinearForFewer(t.rest, keys, c);
    }
  }

  lemma {:induction false} FitsWithout(k: string, t: Template, keys: set<string>, c: string)
    requires Fits(k, t, keys) && !HasHole(t, c)
    ensures Fits(k, t, keys - {c})
    decreases t
  {
    if k != t.lit {
      var n :| |t.lit| <= n <= |k| && Fits(k[n..], t.rest, keys);
      FitsWithout(k[n..], t.rest, keys, c);
    }
  }

  lemma FitsPrefixed(p: string, k: string, t: Template, keys: set<string>)
    requires Fits(k, t, keys)
    ensures Fits(p + k, Prefixed(p, t), keys)
  {
    if k != t.lit {
      var n :| |t.lit| <= n <= |k| && Fits(k[n..], t.rest, keys);
      assert (p + k)[|p| + n..] == k[n..];
    }
  }

  /** The first thing that goes wrong: an intruder for a key, right away or once its mark has been
      replaced by some value; or a key that can be replaced by some value, with a template that is
      not separated by the other keys left behind. */
  datatype Flaw = Now(key: string) | Later(key: string, value: string) | Deeper(key: string, value: string)

  predicate HasFlaw(t: Template, keys: set<string>, f: Flaw) {
    && f.key in keys
    && match f {
         case Now(k) => Intruder(t, k)
         case Later(k, x) => Plain(x) && HasHole(t, k) && Intruder(FillFirst(t, k, x), k)
         case Deeper(c, x) => Plain(x) && HasHole(t, c) && !Separated(FillFirst(t, c, x), keys - {c})
       }
  }

  /** The key `k` fits behind the first mark, and the mark `c` behind the literal of the rest is
      another one: replacing it leaves a shorter fit. */
  lemma FilledFits(k: string, t: Template, keys: set<string>, n: nat)
    requires Linear(t, keys) && t.Hole? && t.key in keys && |t.lit| <= n <= |k| && t.lit <= k
    requires Fits(k[n..], t.rest, keys)
    ensures Fits(k, FillFirst(t, t.key, k[|t.lit|..n]), keys - {t.key})
  {
    FitsWithout(k[n..], t.rest, keys, t.key);
    FitsPrefixed(t.lit + k[|t.lit|..n], k[n..], t.rest, keys - {t.key});
    PrefixMiddleRest(t.lit, k, n);
  }

  lemma DeeperFlaw(k: string, t: Template, keys: set<string>, c: string, x: string)
    requires Linear(t, keys) && k in keys && t.Hole? && k != t.key
    requires c in keys && c != k && Plain(x) && HasHole(t.rest, c) && Fits(k, FillFirst(t.rest, c, x), keys - {c})
    ensures HasFlaw(t, keys, Deeper(c, x))
  {
    var u := FillFirst(t, c, x);
    assert u == t.(rest := FillFirst(t.rest, c, x));
    assert k in keys - {c} && k != u.key && Fits(k, u.rest, keys - {c});
  }

  lemma FlawOfFit(k: string, t: Template, keys: set<string>) returns (f: Flaw)
    requires Linear(t, keys) && k in keys && Plain(k) && t.Hole? && k != t.key && Fits(k, t.rest, keys)
    ensures HasFlaw(t, keys, f)
  {
    var s := t.rest;
    if s.lit == k {
      f := Now(k);
    } else {
      var n :| |s.lit| <= n <= |k| && s.lit <= k && Fits(k[n..], s.rest, keys);
      var v := k[|s.lit|..n];
      if s.key != k {
        FilledFits(k, s, keys, n);
        DeeperFlaw(k, t, keys, s.key, v);
        f := Deeper(s.key, v);
      } else {
        f := FlawBehindOwnMark(k, t, keys, n);
      }
    }
  }

  /** The mark to be filled is one of `k` itself, which must be left to the end. */
  lemma FlawBehindOwnMark(k: string, t: Template, keys: set<string>, n: nat) returns (f: Flaw)
    requires Linear(t, keys) && k in keys && Plain(k) && t.Hole? && k != t.key && t.rest.Hole? && t.rest.key == k
    requires |t.rest.lit| <= n <= |k| && t.rest.lit <= k && Fits(k[n..], t.rest.rest, keys)
    ensures HasFlaw(t, keys, f)
  {
    var s, j := t.rest, k[n..];
    var r := s.rest;
    if r.lit == j {
      PrefixMiddleRest(s.lit, k, n);
      f := Later(k, k[|s.lit|..n]);
    } else {
      var m :| |r.lit| <= m <= |j| && r.lit <= j && Fits(j[m..], r.rest, keys);
      var x := j[|r.lit|..m];
      FilledFits(j, r, keys, m);
      assert FillFirst(s, r.key, x) == s.(rest := FillFirst(r, r.key, x));
      assert Fits(k, FillFirst(s, r.key, x), keys - {r.key});
      DeeperFlaw(k, t, keys, r.key, x);
      f := Deeper(r.key, x);
    }
  }

  lemma {:induction false} FlawOf(t: Template, keys: set<string>) returns (f: Flaw)
    requires Linear(t, keys) && !Separated(t, keys) && forall k | k in keys :: Plain(k)
    ensures HasFlaw(t, keys, f)
  {
    if k :| k in keys && k != t.key && Fits(k, t.rest, keys) {
      f := FlawOfFit(k, t, keys);
    } else {
      f := FlawOf(t.rest, keys);
      if f.Now? && t.key == f.key {
        f := Later(f.key, "");
      }
    }
  }

  // ---- Every flaw shows

  /** The sets give each of the keys one plain value, in some order. */
  predicate Assigns(sets: seq<(string, string)>, keys: set<string>) {
    && DistinctKeys(sets)
    && (forall i | 0 <= i < |sets| :: sets[i].0 in keys && Plain(sets[i].0) && Plain(sets[i].1))
    && (forall k | k in keys :: exists i :: 0 <= i < |sets| && sets[i].0 == k)
  }

  /** The loop over the keys ends and leaves the simultaneous substitution. */
  ghost predicate Simultaneous(t: Template, sets: seq<(string, string)>) {
    AllStop(Text(t), sets) && AllReplaced(Text(t), sets) == Filled(t, AsMap(sets))
  }

  lemma AssignsOneMore(sets: seq<(string, string)>, keys: set<string>, k: string, v: string)
    requires k in keys && Plain(k) && Plain(v) && Assigns(sets, keys - {k})
    ensures Assigns([(k, v)] + sets, keys)
    ensures ([(k, v)] + sets)[1..] == sets
    ensures k !in AsMap(sets) && AsMap([(k, v)] + sets) == AsMap(sets)[k := v]
  {
    var all := [(k, v)] + sets;
    AsMapKeys(sets);
    forall c | c in keys ensures exists i :: 0 <= i < |all| && all[i].0 == c {
      if c == k {
        assert all[0].0 == k;
      } else {
        assert c in keys - {k};
        var i :| 0 <= i < |sets| && sets[i].0 == c;
        assert all[i + 1].0 == c;
      }
    }
    assert all[1..] == sets;
  }

  /** Each key with a value that is longer than its mark by `d`. */
  lemma LongValues(keys: set<string>, d: nat) returns (sets: seq<(string, string)>)
    requires forall k | k in keys :: Plain(k)
    ensures Assigns(sets, keys) && forall i | 0 <= i < |sets| :: |sets[i].1| == |sets[i].0| + 2 + d
    decreases keys
  {
    if keys == {} {
      sets := [];
    } else {
      var k :| k in keys;
      var v := Letters(|k| + 2 + d);
      var rest := LongValues(keys - {k}, d);
      AssignsOneMore(rest, keys, k, v);
      sets := [(k, v)] + rest;
    }
  }

  function Letters(n: nat): (s: string)
    ensures |s| == n && Plain(s)
  {
    seq(n, _ => 'x')
  }

  lemma {:induction false} PlainAllStop(text: string, sets: seq<(string, string)>)
    requires forall i | 0 <= i < |sets| :: Plain(sets[i].1)
    ensures AllStop(text, sets)
    decreases |sets|
  {
    if sets != [] {
      PlainStops(text, sets[0].0, sets[0].1);
      PlainAllStop(Replaced(text, sets[0].0, sets[0].1), sets[1..]);
    }
  }

  lemma {:induction false} AllKeepOddRun(text: string, sets: seq<(string, string)>, n: nat)
    requires OddRun(text, n) && AllStop(text, sets)
    requires forall i | 0 <= i < |sets| :: Plain(sets[i].0) && |sets[i].0| < n && Plain(sets[i].1)
    ensures OddRun(AllReplaced(text, sets), n)
    decreases |sets|
  {
    if sets != [] {
      LoopKeepsOddRun(text, sets[0].0, sets[0].1, n);
      AllKeepOddRun(Replaced(text, sets[0].0, sets[0].1), sets[1..], n);
    }
  }

  lemma {:induction false} AsMapPlain(sets: seq<(string, string)>)
    requires forall i | 0 <= i < |sets| :: Plain(sets[i].1)
    ensures PlainValues(AsMap(sets))
  {
    if sets != [] {
      AsMapPlain(sets[1..]);
    }
  }

  lemma LongerThanAll(keys: set<string>) returns (n: nat)
    ensures forall k | k in keys :: |k| < n
    decreases keys
  {
    n := 0;
    if keys != {} {
      var k :| k in keys;
      var m := LongerThanAll(keys - {k});
      n := if m > |k| then m else |k| + 1;
      assert keys == keys - {k} + {k};
    }
  }

  lemma {:induction false} ShortKeysInText(t: Template, n: nat)
    requires |Text(t)| < n
    ensures ShortKeys(t, n)
  {
    if t.Hole? {
      ShortKeysInText(t.rest, n);
    }
  }

  /** An intruder: a long value for its key is left behind inside what was a mark. */
  lemma NowShows(t: Template, keys: set<string>, k: string) returns (sets: seq<(string, string)>)
    requires WellFormed(t) && k in keys && (forall c | c in keys :: Plain(c)) && Intruder(t, k)
    ensures Assigns(sets, keys) && !Simultaneous(t, sets)
  {
    var m := LongerThanAll(keys);
    var n := m + |Text(t)| + 1;
    var rest := LongValues(keys - {k}, 0);
    var v := Letters(n);
    sets := [(k, v)] + rest;
    AssignsOneMore(rest, keys, k, v);
    PlainAllStop(Text(t), sets);
    IntruderMakesOddRun(t, k, v, n);
    AllKeepOddRun(Replaced(Text(t), k, v), rest, n);
    ShortKeysInText(t, n);
    AsMapPlain(sets);
    FilledHasNoOddRun(t, AsMap(sets), n);
  }

  // ---- The balance of length and '%'s

  /** A '%' weighs `d` more than the two of any other character, so that replacing a mark by a
      plain value that is longer by `d` leaves the weight as it is. */
  function Scale(d: nat): char -> nat {
    c => if c == '%' then 2 + d else 2
  }

  function Balance(text: string, d: nat): nat {
    Weight(text, Scale(d))
  }

  lemma {:induction false} PlainBalance(s: string, d: nat)
    requires Plain(s)
    ensures Balance(s, d) == 2 * |s|
  {
    if s != "" {
      PlainBalance(s[1..], d);
    }
  }

  lemma MarkBalance(key: string, d: nat)
    requires Plain(key)
    ensures Balance(Mark(key), d) == 2 * (|key| + 2 + d)
  {
    WeightAppend("%" + key, "%", Scale(d));
    WeightAppend("%", key, Scale(d));
    PlainBalance(key, d);
    assert Weight("%", Scale(d)) == 2 + d;
  }

  lemma RoundBalance(text: string, key: string, value: string, d: nat)
    requires Find(text, Mark(key)).Some? && Plain(key) && Plain(value)
    ensures Balance(ReplaceFirst(text, key, value), d) + 2 * (|key| + 2 + d) == Balance(text, d) + 2 * |value|
  {
    RoundWeight(text, key, value, Scale(d));
    MarkBalance(key, d);
    PlainBalance(value, d);
  }

  lemma AnyRoundBalance(text: string, key: string, value: string, d: nat)
    requires Plain(key) && Plain(value) && |value| <= |key| + 2 + d
    ensures Balance(Round(text, key, value), d) <= Balance(text, d)
    ensures |value| == |key| + 2 + d ==> Balance(Round(text, key, value), d) == Balance(text, d)
  {
    if Find(text, Mark(key)).Some? {
      RoundBalance(text, key, value, d);
    }
  }

  /** Values that are longer than their mark by no more than `d` never raise the balance. */
  lemma {:induction false} RoundsLowerBalance(text: string, key: string, value: string, m: nat, d: nat)
    requires Plain(key) && Plain(value) && |value| <= |key| + 2 + d
    ensures Balance(Rounds(text, key, value, m), d) <= Balance(text, d)
    decreases m
  {
    if m > 0 {
      var next := Round(text, key, value);
      AnyRoundBalance(text, key, value, d);
      RoundsLowerBalance(next, key, value, m - 1, d);
      assert Rounds(text, key, value, m) == Rounds(next, key, value, m - 1);
    }
  }

  /** Those longer by just `d` keep it. */
  lemma {:induction false} RoundsKeepBalance(text: string, key: string, value: string, m: nat, d: nat)
    requires Plain(key) && Plain(value) && |value| == |key| + 2 + d
    ensures Balance(Rounds(text, key, value, m), d) == Balance(text, d)
    decreases m
  {
    if m > 0 {
      var next := Round(text, key, value);
      AnyRoundBalance(text, key, value, d);
      RoundsKeepBalance(next, key, value, m - 1, d);
      assert Rounds(text, key, value, m) == Rounds(next, key, value, m - 1);
    }
  }

  lemma {:induction false} AllKeepBalance(text: string, sets: seq<(string, string)>, d: nat)
    requires AllStop(text, sets)
    requires forall i | 0 <= i < |sets| ::
               Plain(sets[i].0) && Plain(sets[i].1) && |sets[i].1| == |sets[i].0| + 2 + d
    ensures Balance(AllReplaced(text, sets), d) == Balance(text, d)
    decreases |sets|
  {
    if sets != [] {
      var (key, value) := sets[0];
      PlainStops(text, key, value);
      RoundsKeepBalance(text, key, value, Percents(text), d);
      AllKeepBalance(Replaced(text, key, value), sets[1..], d);
    }
  }

  predicate LongerBy(values: map<string, string>, d: nat) {
    forall k | k in values :: |values[k]| == |k| + 2 + d
  }

  lemma {:induction false} AsMapLonger(sets: seq<(string, string)>, d: nat)
    requires forall i | 0 <= i < |sets| :: |sets[i].1| == |sets[i].0| + 2 + d
    ensures LongerBy(AsMap(sets), d)
  {
    if sets != [] {
      AsMapLonger(sets[1..], d);
    }
  }

  lemma {:induction false} FilledBalance(t: Template, values: map<string, string>, d: nat)
    requires WellFormed(t) && PlainValues(values) && LongerBy(values, d)
    ensures Balance(Filled(t, values), d) == Balance(Text(t), d)
  {
    if t.Hole? {
      var x := if t.key in values then values[t.key] else Mark(t.key);
      FilledBalance(t.rest, values, d);
      WeightAppend(t.lit + x, Filled(t.rest, values), Scale(d));
      WeightAppend(t.lit, x, Scale(d));
      WeightAppend(t.lit + Mark(t.key), Text(t.rest), Scale(d));
      WeightAppend(t.lit, Mark(t.key), Scale(d));
      MarkBalance(t.key, d);
      if t.key in values {
        PlainBalance(x, d);
      }
    }
  }

  // ---- Flaws behind a first round

  lemma AfterRounds(text: string, key: string, value: string, next: string, m: nat)
    requires Find(text, Mark(key)).Some? && ReplaceFirst(text, key, value) == next && m > 0
    ensures Rounds(text, key, value, m) == Rounds(next, key, value, m - 1)
  {
  }

  lemma RoundsFallBelow(text: string, key: string, value: string, m: nat, d: nat)
    requires Plain(key) && Plain(value) && |value| < |key| + 2 + d && Find(text, Mark(key)).Some? && m > 0
    ensures Balance(Rounds(text, key, value, m), d) < Balance(text, d)
  {
    var next := ReplaceFirst(text, key, value);
    RoundBalance(text, key, value, d);
    RoundsLowerBalance(next, key, value, m - 1, d);
    AfterRounds(text, key, value, next, m);
  }

  /** The loop goes one round too far. */
  lemma LoopGoesTooFar(text: string, key: string, value: string, next: string, d: nat)
    requires Plain(key) && Plain(value) && |value| < |key| + 2 + d
    requires Find(text, Mark(key)).Some? && ReplaceFirst(text, key, value) == next && Find(next, Mark(key)).Some?
    ensures Stops(text, key, value) && Balance(Replaced(text, key, value), d) < Balance(next, d)
  {
    var m := Percents(text);
    PlainStops(text, key, value);
    ThreePercents(text, key, value, next);
    AfterRounds(text, key, value, next, m);
    RoundsFallBelow(next, key, value, m - 1, d);
  }

  lemma ThreePercents(text: string, key: string, value: string, next: string)
    requires Find(text, Mark(key)).Some? && ReplaceFirst(text, key, value) == next && Find(next, Mark(key)).Some?
    requires Plain(value)
    ensures Percents(text) > 2
  {
    RoundPercents(text, key, value);
    PlainPercents(value);
    StartsWithPercent(next, key);
  }

  lemma FilledBehind(t: Template, c: string, x: string, values: map<string, string>)
    requires HasHole(t, c) && !HasHole(FillFirst(t, c, x), c) && c !in values
    ensures Filled(t, values[c := x]) == Filled(FillFirst(t, c, x), values)
  {
    FilledAfterFillFirst(t, c, x, values);
    NoHoleNoMatter(FillFirst(t, c, x), c, x, values);
  }

  lemma FillFirstWellFormed(t: Template, c: string, x: string)
    requires WellFormed(t) && HasHole(t, c) && Plain(x)
    ensures WellFormed(FillFirst(t, c, x))
  {
    FillFirstIsFilling(t, c, x, {c});
    FillingKeepsSeparated(t, FillFirst(t, c, x), {c});
  }

  lemma LaterShows(t: Template, keys: set<string>, k: string, x: string) returns (sets: seq<(string, string)>)
    requires WellFormed(t) && Linear(t, keys) && k in keys && forall c | c in keys :: Plain(c)
    requires HasFlaw(t, keys, Later(k, x)) && !Intruder(t, k)
    ensures Assigns(sets, keys) && !Simultaneous(t, sets)
  {
    var u, d := FillFirst(t, k, x), |x|;
    var rest := LongValues(keys - {k}, d);
    sets := [(k, x)] + rest;
    AssignsOneMore(rest, keys, k, x);
    PlainAllStop(Text(t), sets);
    RoundFillsFirst(t, k, x);
    var i := IntruderOccurs(u, k);
    LoopGoesTooFar(Text(t), k, x, Text(u), d);
    AllKeepBalance(Replaced(Text(t), k, x), rest, d);
    FilledOnce(t, k, x, keys);
    FilledBehind(t, k, x, AsMap(rest));
    FillFirstWellFormed(t, k, x);
    AsMapPlain(rest);
    AsMapLonger(rest, d);
    FilledBalance(u, AsMap(rest), d);
  }

  /** A loop that does what it should. */
  lemma CleanLoop(t: Template, c: string, x: string)
    requires WellFormed(t) && Plain(c) && Plain(x) && HasHole(t, c) && !Intruder(t, c)
    requires !HasHole(FillFirst(t, c, x), c) && !Intruder(FillFirst(t, c, x), c)
    ensures Stops(Text(t), c, x) && Replaced(Text(t), c, x) == Text(FillFirst(t, c, x))
  {
    RoundFillsFirst(t, c, x);
    FillFirstWellFormed(t, c, x);
    FindInTemplate(FillFirst(t, c, x), c);
    OneRound(Text(t), c, x, Text(FillFirst(t, c, x)));
  }

  lemma FlawShows(t: Template, keys: set<string>, f: Flaw) returns (sets: seq<(string, string)>)
    requires WellFormed(t) && Linear(t, keys) && (forall k | k in keys :: Plain(k)) && HasFlaw(t, keys, f)
    ensures Assigns(sets, keys) && !Simultaneous(t, sets)
    decreases |keys|, 0
  {
    if Intruder(t, f.key) {
      sets := NowShows(t, keys, f.key);
    } else {
      var c, x := f.key, f.value;
      var u := FillFirst(t, c, x);
      FilledOnce(t, c, x, keys);
      if Intruder(u, c) {
        sets := LaterShows(t, keys, c, x);
      } else {
        FillFirstWellFormed(t, c, x);
        CleanLoop(t, c, x);
        var rest := UnseparatedShows(u, keys - {c});
        sets := [(c, x)] + rest;
        AssignsOneMore(rest, keys, c, x);
        FilledBehind(t, c, x, AsMap(rest));
      }
    }
  }

  lemma UnseparatedShows(t: Template, keys: set<string>) returns (sets: seq<(string, string)>)
    requires WellFormed(t) && Linear(t, keys) && (forall k | k in keys :: Plain(k)) && !Separated(t, keys)
    ensures Assigns(sets, keys) && !Simultaneous(t, sets)
    decreases |keys|, 1
  {
    var f := FlawOf(t, keys);
    sets := FlawShows(t, keys, f);
  }

  /** For a text in which no key has two marks: the loop over the keys is one simultaneous
      substitution, for every order of the keys and all plain values, if and only if the marks are
      kept apart. */
  lemma SimultaneousIsExact(t: Template, keys: set<string>)
    requires WellFormed(t) && Linear(t, keys) && forall k | k in keys :: Plain(k)
    ensures Separated(t, keys) <==> forall sets | Assigns(sets, keys) :: Simultaneous(t, sets)
  {
    if Separated(t, keys) {
      forall sets | Assigns(sets, keys) ensures Simultaneous(t, sets) {
        SequentialIsSimultaneous(t, sets, keys);
      }
    } else {
      var sets := UnseparatedShows(t, keys);
    }
  }
}
