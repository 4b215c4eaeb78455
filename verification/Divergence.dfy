/** Where the replacement loop runs forever, and where the order of the keys matters: the bounds
    proved in Substitution.dfy and Templates.dfy are sharp. */
module Divergence {
  import opened Options
  import opened Substitution
  import opened Templates
  import opened OrderOfKeys

  /** A value that holds two '%'s more than the key, but not the mark. */
  function Twice(key: string): string {
    key + "%%" + key
  }

  lemma TwiceHoldsNoMark(key: string)
    requires Plain(key) && key != ""
    ensures !Contains(Twice(key), Mark(key))
    ensures Percents(Twice(key)) == Percents(key) + 2
  {
    PlainPercents(key);
    PercentsAppend(key + "%%", key);
    PercentsAppend(key, "%%");
    assert Percents("%%") == 2;
    forall i: nat ensures !OccursAt(Twice(key), Mark(key), i) {
      MarkAt(Twice(key), key, i);
    }
  }

  /** A mark with no earlier occurrence is the one that gets replaced. */
  lemma ReplaceAt(front: string, key: string, value: string, back: string, text: string)
    requires text == front + Mark(key) + back
    requires forall j: nat | j < |front| :: !OccursAt(text, Mark(key), j)
    ensures Find(text, Mark(key)) == Some(|front|)
    ensures ReplaceFirst(text, key, value) == front + value + back
  {
    assert text[|front|..|front| + |Mark(key)|] == Mark(key);
    assert OccursAt(text, Mark(key), |front|);
    assert text[..|front|] == front && text[|front| + |Mark(key)|..] == back;
  }

  lemma StrayRegroup(p: string, q: string, key: string)
    ensures (p + "%") + Twice(key) + q == p + Mark(key) + ("%" + key + q)
  {
    assert "%" + Twice(key) == Mark(key) + ("%" + key);
    assert (p + "%") + Twice(key) + q == p + ("%" + Twice(key)) + q;
  }

  lemma JoinedRegroup(p: string, q: string, key: string)
    ensures p + Twice(key) + ("%" + key + q) == (p + key) + "%" + Mark(key) + (key + q)
  {
    assert Twice(key) + "%" == key + "%" + Mark(key);
    assert p + Twice(key) + ("%" + key + q) == p + (Twice(key) + "%") + (key + q);
  }

  /** The first round: the mark behind a stray '%'. */
  lemma StrayRound(p: string, q: string, key: string)
    requires Plain(p) && Plain(key) && key != ""
    ensures Find(p + "%" + Mark(key) + q, Mark(key)).Some?
    ensures ReplaceFirst(p + "%" + Mark(key) + q, key, Twice(key)) == p + Mark(key) + ("%" + key + q)
  {
    var text := (p + "%") + Mark(key) + q;
    forall j: nat | j < |p + "%"| ensures !OccursAt(text, Mark(key), j) {
      MarkAt(text, key, j);
      if j == |p| {
        assert text[j + 1] == '%' && text[j + 1..j + 1 + |key|][0] == '%';
      } else {
        assert text[j] == p[j];
      }
    }
    ReplaceAt(p + "%", key, Twice(key), q, text);
    StrayRegroup(p, q, key);
  }

  /** The second round, on the mark that the first has joined together. */
  lemma JoinedRound(p: string, q: string, key: string)
    requires Plain(p)
    ensures Find(p + Mark(key) + ("%" + key + q), Mark(key)).Some?
    ensures ReplaceFirst(p + Mark(key) + ("%" + key + q), key, Twice(key))
         == (p + key) + "%" + Mark(key) + (key + q)
  {
    var text := p + Mark(key) + ("%" + key + q);
    forall j: nat | j < |p| ensures !OccursAt(text, Mark(key), j) {
      MarkAt(text, key, j);
      assert text[j] == p[j];
    }
    ReplaceAt(p, key, Twice(key), "%" + key + q, text);
    JoinedRegroup(p, q, key);
  }

  lemma FirstTwoRounds(p: string, q: string, key: string, n: nat)
    requires Plain(p) && Plain(key) && key != "" && n < 2
    ensures !StopsWithin(p + "%" + Mark(key) + q, key, Twice(key), n)
  {
    StrayRound(p, q, key);
    if n == 1 {
      JoinedRound(p, q, key);
      RoundThenRest(p + "%" + Mark(key) + q, key, Twice(key), p + Mark(key) + ("%" + key + q), 0);
    }
  }

  /** Two rounds put the key around the text. */
  lemma TwoRoundsMore(p: string, q: string, key: string, n: nat)
    requires Plain(p) && Plain(key) && key != "" && n >= 2
    requires !StopsWithin((p + key) + "%" + Mark(key) + (key + q), key, Twice(key), n - 2)
    ensures !StopsWithin(p + "%" + Mark(key) + q, key, Twice(key), n)
  {
    var between, after := p + Mark(key) + ("%" + key + q), (p + key) + "%" + Mark(key) + (key + q);
    StrayRound(p, q, key);
    JoinedRound(p, q, key);
    RoundThenRest(between, key, Twice(key), after, n - 2);
    RoundThenRest(p + "%" + Mark(key) + q, key, Twice(key), between, n - 1);
  }

  /** Two more '%'s than the key are enough for the loop to run forever, although the value does
      not hold the mark: each replacement joins its neighbours into the next mark. */
  lemma {:induction false} JoiningNeverStops(p: string, q: string, key: string, n: nat)
    requires Plain(p) && Plain(key) && key != ""
    ensures !StopsWithin(p + "%" + Mark(key) + q, key, Twice(key), n)
    decreases n
  {
    if n < 2 {
      FirstTwoRounds(p, q, key, n);
    } else {
      JoiningNeverStops(p + key, key + q, key, n - 2);
      TwoRoundsMore(p, q, key, n);
    }
  }

  lemma JoiningDiverges(p: string, q: string, key: string)
    requires Plain(p) && Plain(key) && key != ""
    ensures !Stops(p + "%" + Mark(key) + q, key, Twice(key))
  {
    var text := p + "%" + Mark(key) + q;
    forall n: nat ensures !StopsWithin(text, key, Twice(key), n) {
      JoiningNeverStops(p, q, key, n);
    }
  }

  // ---- How much a value may hold

  /** The mark with something behind it never goes away. */
  lemma MarkAndMoreDiverges(key: string, more: string)
    ensures !Stops(Mark(key), key, Mark(key) + more)
  {
    var value := Mark(key) + more;
    assert value[0..|Mark(key)|] == Mark(key) && OccursAt(value, Mark(key), 0) && OccursAt(Mark(key), Mark(key), 0);
    forall n: nat ensures !StopsWithin(Mark(key), key, value, n) {
      OwnMarkNeverStops(Mark(key), key, value, n);
    }
  }

  lemma {:induction false} CountIsMultiplicity(s: string, c: char)
    ensures Count(s, c) == multiset(s)[c]
  {
    if s != "" {
      CountIsMultiplicity(s[1..], c);
      assert s == [s[0]] + s[1..];
    }
  }

  lemma Arranged(m: multiset<char>) returns (s: string)
    ensures multiset(s) == m
    decreases |m|
  {
    s := "";
    if m != multiset{} {
      var c :| c in m;
      var rest := Arranged(m - multiset{c});
      s := [c] + rest;
    }
  }

  /** Which characters a value may hold, and how often, for the loop to end on every text however
      they are arranged: some character has to be rarer than in the mark. */
  lemma CharactersBoundIsExact(key: string, m: multiset<char>)
    ensures (forall text, value | multiset(value) == m :: Stops(text, key, value)) <==> !(multiset(Mark(key)) <= m)
  {
    if multiset(Mark(key)) <= m {
      var more := Arranged(m - multiset(Mark(key)));
      MarkAndMoreDiverges(key, more);
      assert multiset(Mark(key) + more) == m;
    } else {
      var c :| multiset(Mark(key))[c] > m[c];
      forall text, value | multiset(value) == m ensures Stops(text, key, value) {
        CountIsMultiplicity(value, c);
        CountIsMultiplicity(Mark(key), c);
        RareCharacterStops(text, key, value, c);
      }
    }
  }

  lemma PercentsAreCounted(s: string)
    ensures Percents(s) == multiset(s)['%']
  {
    PercentsAreCount(s);
    CountIsMultiplicity(s, '%');
  }

  lemma {:induction false} PercentsAreCount(s: string)
    ensures Percents(s) == Count(s, '%')
  {
    if s != "" {
      PercentsAreCount(s[1..]);
    }
  }

  lemma SameLength(s: string)
    ensures |multiset(s)| == |s|
  {
  }

  /** The number of '%'s up to which every value lets the loop end on every text. */
  lemma PercentBoundIsExact(key: string, m: nat)
    ensures (forall text, value | Percents(value) == m :: Stops(text, key, value)) <==> m < Percents(key) + 2
  {
    MarkPercents(key);
    PercentsAreCounted(Mark(key));
    if m < Percents(key) + 2 {
      forall text, value | Percents(value) == m ensures Stops(text, key, value) {
        PercentsAreCounted(value);
        CharactersBoundIsExact(key, multiset(value));
      }
    } else {
      var all := multiset(Mark(key))['%' := m];
      CharactersBoundIsExact(key, all);
      var text, value :| multiset(value) == all && !Stops(text, key, value);
      PercentsAreCounted(value);
    }
  }

  /** The length up to which every value does. */
  lemma LengthBoundIsExact(key: string, n: nat)
    ensures (forall text, value | |value| == n :: Stops(text, key, value)) <==> n < |key| + 2
  {
    var mark := multiset(Mark(key));
    SameLength(Mark(key));
    if n < |key| + 2 {
      forall text, value | |value| == n ensures Stops(text, key, value) {
        SameLength(value);
        PartIsNoLarger(mark, multiset(value));
        CharactersBoundIsExact(key, multiset(value));
      }
    } else {
      var all := mark['%' := mark['%'] + (n - |key| - 2)];
      CharactersBoundIsExact(key, all);
      var text, value :| multiset(value) == all && !Stops(text, key, value);
      SameLength(value);
    }
  }

  lemma PartIsNoLarger(a: multiset<char>, b: multiset<char>)
    ensures a <= b ==> |a| <= |b|
  {
    if a <= b {
      assert b == a + (b - a);
    }
  }

  // ---- Marks that share a '%'

  lemma FewPercentsNoMark(text: string, key: string)
    requires Percents(text) < 2
    ensures Find(text, Mark(key)).None?
  {
    if Find(text, Mark(key)).Some? {
      RoundPercents(text, key, "");
    }
  }

  lemma OnePercent(a: string, b: string)
    requires Plain(a) && Plain(b)
    ensures Percents(a + "%" + b) == 1
  {
    PlainPercents(a);
    PlainPercents(b);
    PercentsAppend(a + "%", b);
    PercentsAppend(a, "%");
  }

  lemma NotInPlain(front: string, rest: string, key: string, j: nat)
    requires Plain(front) && j < |front|
    ensures !OccursAt(front + rest, Mark(key), j)
  {
    MarkAt(front + rest, key, j);
    assert (front + rest)[j] == front[j];
  }

  /** Two marks that share a '%', between two texts. */
  function SharedPercent(a: string, k: string, l: string, b: string): string {
    a + ("%" + k + Mark(l)) + b
  }

  lemma SharedRegroup(a: string, k: string, l: string, b: string)
    ensures SharedPercent(a, k, l, b) == a + Mark(k) + (l + "%" + b)
    ensures SharedPercent(a, k, l, b) == (a + "%" + k) + Mark(l) + b
    ensures SharedPercent(a, k, l, b) == a + ("%" + k + "%" + (l + "%" + b))
  {
  }

  /** The mark of `k` comes first and takes the '%' it shares with the mark of `l`. */
  lemma FirstMarkWins(a: string, k: string, l: string, b: string, v: string)
    requires Plain(a) && Plain(k) && Plain(l) && Plain(b) && Plain(v)
    ensures var text, after := SharedPercent(a, k, l, b), (a + v + l) + "%" + b;
            Stops(text, k, v) && Replaced(text, k, v) == after && Percents(after) == 1
  {
    var text, after := SharedPercent(a, k, l, b), (a + v + l) + "%" + b;
    SharedRegroup(a, k, l, b);
    forall j: nat | j < |a| ensures !OccursAt(text, Mark(k), j) {
      NotInPlain(a, "%" + k + "%" + (l + "%" + b), k, j);
    }
    ReplaceAt(a, k, v, l + "%" + b, text);
    assert a + v + (l + "%" + b) == after;
    OnePercent(a + v + l, b);
    FewPercentsNoMark(after, k);
    OneRound(text, k, v, after);
  }

  lemma SecondRegroup(a: string, k: string, w: string, b: string)
    ensures (a + "%" + k) + w + b == a + "%" + (k + w + b)
  {
  }

  lemma NotBeforeSecond(a: string, k: string, l: string, b: string, j: nat)
    requires Plain(a) && Plain(k) && Plain(l) && k != l && j < |a + "%" + k|
    ensures !OccursAt(SharedPercent(a, k, l, b), Mark(l), j)
  {
    var back := "%" + k + "%" + (l + "%" + b);
    SharedRegroup(a, k, l, b);
    if j < |a| {
      NotInPlain(a, back, l, j);
    } else {
      OccursBehind(a, back, Mark(l), j - |a|);
      MarkAt(back, l, j - |a|);
      NotAtOpening(k, l, l + "%" + b, j - |a|);
    }
  }

  /** Asked for first, the other mark takes it. */
  lemma SecondMarkWins(a: string, k: string, l: string, b: string, w: string)
    requires Plain(a) && Plain(k) && Plain(l) && Plain(b) && Plain(w) && k != l
    ensures var text, after := SharedPercent(a, k, l, b), a + "%" + (k + w + b);
            Stops(text, l, w) && Replaced(text, l, w) == after && Percents(after) == 1
  {
    var text, after := SharedPercent(a, k, l, b), a + "%" + (k + w + b);
    SharedRegroup(a, k, l, b);
    forall j: nat | j < |a + "%" + k| ensures !OccursAt(text, Mark(l), j) {
      NotBeforeSecond(a, k, l, b, j);
    }
    ReplaceAt(a + "%" + k, l, w, b, text);
    SecondRegroup(a, k, w, b);
    OnePercent(a, k + w + b);
    FewPercentsNoMark(after, l);
    OneRound(text, l, w, after);
  }

  /** No mark of another key starts at the opening '%' of a mark. */
  lemma NotAtOpening(k: string, l: string, back: string, j: nat)
    requires Plain(k) && Plain(l) && k != l && j <= |k|
    ensures var text := "%" + k + "%" + back;
            !(j + |l| + 2 <= |text| && text[j] == '%' && text[j + 1..j + 1 + |l|] == l && text[j + 1 + |l|] == '%')
  {
    var text := "%" + k + "%" + back;
    if j > 0 {
      assert text[j] == k[j - 1];
    } else if |l| < |k| {
      assert text[1 + |l|] == k[|l|];
    } else if |l| == |k| {
      assert text[1..1 + |l|] == k;
    } else if |l| + 2 <= |text| {
      assert text[1..1 + |l|][|k|] == '%';
    }
  }

  /** Both orders of two keys end and leave the same text. */
  ghost predicate EitherOrder(text: string, k: string, v: string, l: string, w: string) {
    && AllStop(text, [(k, v), (l, w)])
    && AllStop(text, [(l, w), (k, v)])
    && AllReplaced(text, [(k, v), (l, w)]) == AllReplaced(text, [(l, w), (k, v)])
  }

  lemma TwoLoops(text: string, k: string, v: string, between: string, l: string, w: string, after: string)
    requires Stops(text, k, v) && Replaced(text, k, v) == between
    requires Stops(between, l, w) && Replaced(between, l, w) == after
    ensures AllStop(text, [(k, v), (l, w)]) && AllReplaced(text, [(k, v), (l, w)]) == after
  {
    assert [(k, v), (l, w)][1..] == [(l, w)] && [(l, w)][1..] == [];
    assert AllReplaced(between, [(l, w)]) == AllReplaced(Replaced(between, l, w), []);
  }

  lemma TwoKeys(text: string, k: string, v: string, between: string, l: string, w: string)
    requires Stops(text, k, v) && Replaced(text, k, v) == between && Percents(between) < 2
    ensures AllStop(text, [(k, v), (l, w)]) && AllReplaced(text, [(k, v), (l, w)]) == between
  {
    FewPercentsNoMark(between, l);
    NoRound(between, l, w);
    TwoLoops(text, k, v, between, l, w, between);
  }

  lemma OtherPercent(a: string, k: string, l: string, b: string, v: string, w: string)
    requires Plain(a) && Plain(v) && Plain(l) && k != l
    ensures (a + v + l) + "%" + b != a + "%" + (k + w + b)
  {
    var x, y := (a + v + l) + "%" + b, a + "%" + (k + w + b);
    assert y[|a|] == '%';
    assert v + l != "" ==> x[|a|] == (v + l)[0] != '%';
    assert v + l == "" ==> |x| == |a| + 1 + |b|;
  }

  /** Two marks that share a '%', wherever they stand: whichever key comes first takes it away from
      the other, so the order of the keys always shows. */
  lemma SharedPercentOrderMatters(a: string, k: string, l: string, b: string, v: string, w: string)
    requires Plain(a) && Plain(k) && Plain(l) && Plain(b) && Plain(v) && Plain(w) && k != l
    ensures var text := SharedPercent(a, k, l, b);
            && AllStop(text, [(k, v), (l, w)]) && AllReplaced(text, [(k, v), (l, w)]) == (a + v + l) + "%" + b
            && AllStop(text, [(l, w), (k, v)]) && AllReplaced(text, [(l, w), (k, v)]) == a + "%" + (k + w + b)
            && !EitherOrder(text, k, v, l, w)
  {
    var text := SharedPercent(a, k, l, b);
    FirstMarkWins(a, k, l, b, v);
    SecondMarkWins(a, k, l, b, w);
    TwoKeys(text, k, v, (a + v + l) + "%" + b, l, w);
    TwoKeys(text, l, w, a + "%" + (k + w + b), k, v);
    OtherPercent(a, k, l, b, v, w);
  }

  // ---- Two marks with a literal between them

  /** Two marks, with literals in front of, between and behind them. */
  function TwoMarks(a: string, k: string, m: string, l: string, b: string): Template {
    Hole(a, k, Hole(m, l, End(b)))
  }

  lemma TwoMarksSeparated(a: string, k: string, m: string, l: string, b: string)
    requires Plain(a) && Plain(k) && Plain(m) && Plain(l) && Plain(b) && k != l
    ensures WellFormed(TwoMarks(a, k, m, l, b))
    ensures Separated(TwoMarks(a, k, m, l, b), {k, l}) <==> m != l
  {
    var rest, keys := Hole(m, l, End(b)), {k, l};
    assert !Fits(k, End(b), keys) && !Fits(l, End(b), keys);
    assert Separated(rest, keys);
    assert Fits(l, rest, keys) <==> l == m;
  }

  lemma TwoMarksApart(a: string, k: string, m: string, l: string, b: string, v: string, w: string)
    requires Plain(a) && Plain(k) && Plain(m) && Plain(l) && Plain(b) && Plain(v) && Plain(w) && k != l && m != l
    ensures EitherOrder(Text(TwoMarks(a, k, m, l, b)), k, v, l, w)
  {
    var x, y := [(k, v), (l, w)], [(l, w), (k, v)];
    TwoMarksSeparated(a, k, m, l, b);
    assert multiset(x) == multiset{(k, v), (l, w)} == multiset(y);
    OrderDoesNotMatter(TwoMarks(a, k, m, l, b), x, y, {k, l});
  }

  /** First `k`: both marks are replaced, and no '%' is left. */
  lemma FirstKeyFirst(a: string, k: string, m: string, l: string, b: string, v: string, w: string)
    requires Plain(a) && Plain(k) && Plain(m) && Plain(l) && Plain(b) && Plain(v) && Plain(w) && k != l
    ensures var text, sets := Text(TwoMarks(a, k, m, l, b)), [(k, v), (l, w)];
            AllStop(text, sets) && Plain(AllReplaced(text, sets))
  {
    var t := TwoMarks(a, k, m, l, b);
    var u := FillFirst(t, k, v);
    assert u == Hole(a + v + m, l, End(b));
    CleanLoop(t, k, v);
    CleanLoop(u, l, w);
    assert FillFirst(u, l, w) == End(a + v + m + w + b);
    TwoLoops(Text(t), k, v, Text(u), l, w, a + v + m + w + b);
  }

  /** First `l`, where the literal is `l` too: the literal is replaced with the '%'s around it, and
      a '%' is left in the end. */
  lemma SecondKeyFirst(a: string, k: string, l: string, b: string, v: string, w: string)
    requires Plain(a) && Plain(k) && Plain(l) && Plain(b) && Plain(v) && Plain(w) && k != l && |w| > |k| + |l|
    ensures var text, sets := Text(TwoMarks(a, k, l, l, b)), [(l, w), (k, v)];
            AllStop(text, sets) && !Plain(AllReplaced(text, sets))
  {
    var t := TwoMarks(a, k, l, l, b);
    IntruderMakesOddRun(t, l, w, |w|);
    var between := Replaced(Text(t), l, w);
    LoopKeepsOddRun(between, k, v, |w|);
    OddRunHasPercent(Replaced(between, k, v), |w|);
    TwoLoops(Text(t), l, w, between, k, v, Replaced(between, k, v));
  }

  lemma OddRunHasPercent(text: string, n: nat)
    requires OddRun(text, n)
    ensures !Plain(text)
  {
    var i: nat :| OddRunAt(text, n, i);
    if Plain(text[..i]) {
      PlainPercents(text[..i]);
    }
    assert !Plain(text[..i]);
  }

  /** With the plain literal `m` between two marks, the order of their keys never shows if and only
      if the literal is not the second key. */
  lemma TwoMarksOrderIsExact(a: string, k: string, m: string, l: string, b: string)
    requires Plain(a) && Plain(k) && Plain(m) && Plain(l) && Plain(b) && k != l
    ensures (forall v, w | Plain(v) && Plain(w) :: EitherOrder(Text(TwoMarks(a, k, m, l, b)), k, v, l, w)) <==> m != l
  {
    if m != l {
      forall v, w | Plain(v) && Plain(w) ensures EitherOrder(Text(TwoMarks(a, k, m, l, b)), k, v, l, w) {
        TwoMarksApart(a, k, m, l, b, v, w);
      }
    } else {
      var w := Letters(|k| + |l| + 1);
      FirstKeyFirst(a, k, m, l, b, "", w);
      SecondKeyFirst(a, k, l, b, "", w);
      assert Plain("") && Plain(w) && !EitherOrder(Text(TwoMarks(a, k, m, l, b)), k, "", l, w);
    }
  }

  // ---- The same in batch commands

  lemma OneCommand(c: string)
    ensures BatchText([c]) == " " + c
  {
    assert [c][1..] == [];
    assert " " + c + "" == " " + c;
  }

  lemma TwoCommands(c: string, d: string)
    ensures BatchText([c, d]) == " " + c + (" " + d)
  {
    assert [c, d][1..] == [d];
    OneCommand(d);
  }

  /** A batch command with two marks that share a '%'. */
  lemma SharedPercentInCommand(a: string, k: string, l: string, b: string, v: string, w: string)
    requires Plain(a) && Plain(k) && Plain(l) && Plain(b) && Plain(v) && Plain(w) && k != l
    ensures !EitherOrder(BatchText([SharedPercent(a, k, l, b)]), k, v, l, w)
  {
    OneCommand(SharedPercent(a, k, l, b));
    assert " " + SharedPercent(a, k, l, b) == SharedPercent(" " + a, k, l, b);
    SharedPercentOrderMatters(" " + a, k, l, b, v, w);
  }

  /** A batch command with two marks and a literal between them. */
  lemma OrderInCommandIsExact(a: string, k: string, m: string, l: string, b: string)
    requires Plain(a) && Plain(k) && Plain(m) && Plain(l) && Plain(b) && k != l
    ensures var text := BatchText([Text(TwoMarks(a, k, m, l, b))]);
            (forall v, w | Plain(v) && Plain(w) :: EitherOrder(text, k, v, l, w)) <==> m != l
  {
    var t := TwoMarks(a, k, m, l, b);
    OneCommand(Text(t));
    PrefixedText(" ", t);
    assert Prefixed(" ", t) == TwoMarks(" " + a, k, m, l, b);
    TwoMarksOrderIsExact(" " + a, k, m, l, b);
  }

  /** Two batch commands with a mark each: the space that is put between them is part of the
      literal. */
  lemma OrderInTwoCommandsIsExact(a: string, k: string, m: string, n: string, l: string, b: string)
    requires Plain(a) && Plain(k) && Plain(m) && Plain(n) && Plain(l) && Plain(b) && k != l
    ensures var text := BatchText([a + Mark(k) + m, n + Mark(l) + b]);
            (forall v, w | Plain(v) && Plain(w) :: EitherOrder(text, k, v, l, w)) <==> m + " " + n != l
  {
    TwoCommandsText(a, k, m, n, l, b);
    TwoMarksOrderIsExact(" " + a, k, m + " " + n, l, b);
  }

  lemma TwoCommandsText(a: string, k: string, m: string, n: string, l: string, b: string)
    ensures BatchText([a + Mark(k) + m, n + Mark(l) + b]) == Text(TwoMarks(" " + a, k, m + " " + n, l, b))
  {
    TwoCommands(a + Mark(k) + m, n + Mark(l) + b);
    TwoCommandsRegroup(a, Mark(k), m, n, Mark(l), b);
    assert Text(Hole(m + " " + n, l, End(b))) == (m + " " + n) + Mark(l) + b;
  }

  lemma TwoCommandsRegroup(a: string, x: string, m: string, n: string, y: string, b: string)
    ensures " " + (a + x + m) + (" " + (n + y + b)) == (" " + a) + x + ((m + " " + n) + y + b)
  {
  }
}
