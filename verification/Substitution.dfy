/** The replacement of `%key%` marks in the batch commands: for each configured key in turn, the
    first occurrence of its mark is found and replaced until there is none left. */
module Substitution {
  import opened Options

  function Mark(key: string): string {
    "%" + key + "%"
  }

  predicate OccursAt(text: string, pattern: string, i: nat) {
    i + |pattern| <= |text| && text[i..i + |pattern|] == pattern
  }

  ghost predicate Contains(text: string, pattern: string) {
    exists i: nat :: OccursAt(text, pattern, i)
  }

  function FindFrom(text: string, pattern: string, i: nat): (r: Option<nat>)
    requires i <= |text|
    ensures r.None? ==> forall j | i <= j :: !OccursAt(text, pattern, j)
    ensures r.Some? ==> i <= r.value && OccursAt(text, pattern, r.value)
    ensures r.Some? ==> forall j | i <= j < r.value :: !OccursAt(text, pattern, j)
    decreases |text| - i
  {
    if OccursAt(text, pattern, i) then Some(i)
    else if i == |text| then None
    else FindFrom(text, pattern, i + 1)
  }

  /** `text.find(pattern)`: the first occurrence. */
  function Find(text: string, pattern: string): (r: Option<nat>)
    ensures r.None? <==> !Contains(text, pattern)
    ensures r.Some? ==> OccursAt(text, pattern, r.value)
    ensures r.Some? ==> forall j | 0 <= j < r.value :: !OccursAt(text, pattern, j)
  {
    FindFrom(text, pattern, 0)
  }

  function ReplaceFirst(text: string, key: string, value: string): string
    requires Find(text, Mark(key)).Some?
  {
    var p := Find(text, Mark(key)).value;
    text[..p] + value + text[p + |Mark(key)|..]
  }

  /** One round of the loop for one key; nothing happens once the mark is gone. */
  function Round(text: string, key: string, value: string): string {
    if Find(text, Mark(key)).None? then text else ReplaceFirst(text, key, value)
  }

  /** The text after at most `n` rounds. */
  function Rounds(text: string, key: string, value: string, n: nat): string
    decreases n
  {
    if n == 0 then text else Rounds(Round(text, key, value), key, value, n - 1)
  }

  predicate StopsWithin(text: string, key: string, value: string, n: nat) {
    Find(Rounds(text, key, value, n), Mark(key)).None?
  }

  /** The loop for this key comes to an end. */
  ghost predicate Stops(text: string, key: string, value: string) {
    exists n: nat :: StopsWithin(text, key, value, n)
  }

  /** One round, then the rest. */
  lemma RoundThenRest(text: string, key: string, value: string, next: string, n: nat)
    requires Find(text, Mark(key)).Some? && ReplaceFirst(text, key, value) == next
    ensures Rounds(text, key, value, n + 1) == Rounds(next, key, value, n)
    ensures StopsWithin(text, key, value, n + 1) <==> StopsWithin(next, key, value, n)
  {
  }

  lemma {:induction false} NoMoreRounds(text: string, key: string, value: string, n: nat)
    requires Find(text, Mark(key)).None?
    ensures Rounds(text, key, value, n) == text
    decreases n
  {
    if n > 0 {
      NoMoreRounds(text, key, value, n - 1);
    }
  }

  /** Further rounds change nothing once the mark is gone. */
  lemma {:induction false} MoreRounds(text: string, key: string, value: string, m: nat, n: nat)
    requires StopsWithin(text, key, value, m) && m <= n
    ensures Rounds(text, key, value, n) == Rounds(text, key, value, m)
    decreases m
  {
    if m == 0 {
      NoMoreRounds(text, key, value, n);
    } else {
      MoreRounds(Round(text, key, value), key, value, m - 1, n - 1);
    }
  }

  lemma StopsLater(text: string, key: string, value: string, m: nat, n: nat)
    requires StopsWithin(text, key, value, m) && m <= n
    ensures StopsWithin(text, key, value, n)
  {
    MoreRounds(text, key, value, m, n);
  }

  /** What the loop for one key leaves behind. */
  ghost function Replaced(text: string, key: string, value: string): (r: string)
    requires Stops(text, key, value)
    ensures forall n: nat :: StopsWithin(text, key, value, n) ==> r == Rounds(text, key, value, n)
    ensures !Contains(r, Mark(key))
  {
    var m: nat :| StopsWithin(text, key, value, m);
    var r := Rounds(text, key, value, m);
    assert forall n: nat :: StopsWithin(text, key, value, n) ==> r == Rounds(text, key, value, n) by {
      forall n: nat | StopsWithin(text, key, value, n) ensures r == Rounds(text, key, value, n) {
        if m <= n { MoreRounds(text, key, value, m, n); } else { MoreRounds(text, key, value, n, m); }
      }
    }
    r
  }

  lemma NoRound(text: string, key: string, value: string)
    requires Find(text, Mark(key)).None?
    ensures Stops(text, key, value) && Replaced(text, key, value) == text
  {
    assert StopsWithin(text, key, value, 0);
  }

  lemma OneRound(text: string, key: string, value: string, next: string)
    requires Find(text, Mark(key)).Some? && ReplaceFirst(text, key, value) == next
    requires Find(next, Mark(key)).None?
    ensures Stops(text, key, value) && Replaced(text, key, value) == next
  {
    RoundThenRest(text, key, value, next, 0);
    assert StopsWithin(text, key, value, 1);
  }

  /** The loop as it is written. It has no guard against values that bring the mark back, so it
      can only be run where it comes to an end. */
  method ReplaceMarks(text: string, key: string, value: string) returns (result: string)
    requires Stops(text, key, value)
    ensures result == Replaced(text, key, value)
  {
    ghost var n: nat :| StopsWithin(text, key, value, n);
    assert "%" + key + "%" == Mark(key);
    result := text;
    while Find(result, "%" + key + "%") != None
      invariant Rounds(result, key, value, n) == Replaced(text, key, value)
      decreases n
    {
      var position := Find(result, "%" + key + "%").value;
      var next := result[..position] + value + result[position + |"%" + key + "%"|..];
      RoundThenRest(result, key, value, next, n - 1);
      result, n := next, n - 1;
    }
    NoMoreRounds(result, key, value, n);
  }

  // ---- When the loop ends

  /** The characters of a text, each counted as often as `w` says. */
  function Weight(s: string, w: char -> nat): nat {
    if s == "" then 0 else w(s[0]) + Weight(s[1..], w)
  }

  lemma {:induction false} WeightAppend(s: string, t: string, w: char -> nat)
    ensures Weight(s + t, w) == Weight(s, w) + Weight(t, w)
  {
    if s == "" {
      assert s + t == t;
    } else {
      WeightAppend(s[1..], t, w);
      assert (s + t)[1..] == s[1..] + t;
    }
  }

  /** One round takes away the weight of the mark and brings that of the value. */
  lemma RoundWeight(text: string, key: string, value: string, w: char -> nat)
    requires Find(text, Mark(key)).Some?
    ensures Weight(ReplaceFirst(text, key, value), w) + Weight(Mark(key), w) == Weight(text, w) + Weight(value, w)
  {
    var p := Find(text, Mark(key)).value;
    var front, back := text[..p], text[p + |Mark(key)|..];
    assert text == front + Mark(key) + back;
    WeightAppend(front + Mark(key), back, w);
    WeightAppend(front, Mark(key), w);
    WeightAppend(front + value, back, w);
    WeightAppend(front, value, w);
  }

  /** A value that is lighter than its mark, by whatever weights, lets the loop end: every round
      lowers the weight of the text. */
  lemma {:induction false} LightValueStops(text: string, key: string, value: string, w: char -> nat)
    requires Weight(value, w) < Weight(Mark(key), w)
    ensures StopsWithin(text, key, value, Weight(text, w))
    decreases Weight(text, w)
  {
    if Find(text, Mark(key)).Some? {
      RoundWeight(text, key, value, w);
      var next := ReplaceFirst(text, key, value);
      LightValueStops(next, key, value, w);
      StopsLater(next, key, value, Weight(next, w), Weight(text, w) - 1);
      RoundThenRest(text, key, value, next, Weight(text, w) - 1);
    } else {
      NoMoreRounds(text, key, value, Weight(text, w));
    }
  }

  /** How often a character stands in a text. */
  function Count(s: string, c: char): nat {
    Weight(s, d => if d == c then 1 else 0)
  }

  /** A value in which some character is rarer than in its mark lets the loop end. */
  lemma RareCharacterStops(text: string, key: string, value: string, c: char)
    requires Count(value, c) < Count(Mark(key), c)
    ensures StopsWithin(text, key, value, Count(text, c))
  {
    LightValueStops(text, key, value, d => if d == c then 1 else 0);
  }

  function PercentWeight(c: char): nat {
    if c == '%' then 1 else 0
  }

  function UnitWeight(c: char): nat {
    1
  }

  function Percents(s: string): nat {
    Weight(s, PercentWeight)
  }

  lemma PercentsAppend(s: string, t: string)
    ensures Percents(s + t) == Percents(s) + Percents(t)
  {
    WeightAppend(s, t, PercentWeight);
  }

  lemma {:induction false} LengthIsWeight(s: string)
    ensures Weight(s, UnitWeight) == |s|
  {
    if s != "" {
      LengthIsWeight(s[1..]);
    }
  }

  lemma MarkPercents(key: string)
    ensures Percents(Mark(key)) == Percents(key) + 2
  {
    PercentsAppend("%" + key, "%");
    PercentsAppend("%", key);
  }

  /** One round takes away the '%'s of the mark and brings those of the value. */
  lemma RoundPercents(text: string, key: string, value: string)
    requires Find(text, Mark(key)).Some?
    ensures Percents(ReplaceFirst(text, key, value)) + Percents(key) + 2 == Percents(text) + Percents(value)
    ensures |ReplaceFirst(text, key, value)| + |key| + 2 == |text| + |value|
  {
    RoundWeight(text, key, value, PercentWeight);
    MarkPercents(key);
  }

  /** A value with fewer '%'s than its mark always lets the loop end. In particular this covers
      every value without '%'. */
  lemma FewPercentsStop(text: string, key: string, value: string)
    requires Percents(value) < Percents(key) + 2
    ensures StopsWithin(text, key, value, Percents(text))
  {
    MarkPercents(key);
    LightValueStops(text, key, value, PercentWeight);
  }

  /** So does a value shorter than its mark. */
  lemma ShortValueStops(text: string, key: string, value: string)
    requires |value| < |key| + 2
    ensures StopsWithin(text, key, value, |text|)
  {
    LengthIsWeight(text);
    LengthIsWeight(value);
    LengthIsWeight(Mark(key));
    LightValueStops(text, key, value, UnitWeight);
  }

  lemma OccursInMiddle(front: string, value: string, back: string, pattern: string)
    requires Contains(value, pattern)
    ensures Contains(front + value + back, pattern)
  {
    var i: nat :| OccursAt(value, pattern, i);
    var text := front + value + back;
    assert text[|front| + i..|front| + i + |pattern|] == value[i..i + |pattern|];
    assert OccursAt(text, pattern, |front| + i);
  }

  lemma MarkStays(text: string, key: string, value: string)
    requires Find(value, Mark(key)).Some? && Find(text, Mark(key)).Some?
    ensures Find(ReplaceFirst(text, key, value), Mark(key)).Some?
  {
    var p := Find(text, Mark(key)).value;
    OccursInMiddle(text[..p], value, text[p + |Mark(key)|..], Mark(key));
  }

  lemma {:induction false} OwnMarkStays(text: string, key: string, value: string, n: nat)
    requires Find(value, Mark(key)).Some? && Find(text, Mark(key)).Some?
    ensures !StopsWithin(text, key, value, n)
    decreases n
  {
    if n > 0 {
      MarkStays(text, key, value);
      OwnMarkStays(ReplaceFirst(text, key, value), key, value, n - 1);
    }
  }

  /** A value that holds its own mark makes the loop run forever, unless there was nothing to
      replace to begin with. */
  lemma OwnMarkNeverStops(text: string, key: string, value: string, n: nat)
    requires Contains(value, Mark(key))
    ensures StopsWithin(text, key, value, n) <==> !Contains(text, Mark(key))
  {
    if Find(text, Mark(key)).None? {
      NoMoreRounds(text, key, value, n);
    } else {
      OwnMarkStays(text, key, value, n);
    }
  }

  // ---- All keys, and the command that is built

  ghost predicate AllStop(text: string, sets: seq<(string, string)>)
    decreases |sets|
  {
    sets == [] || (Stops(text, sets[0].0, sets[0].1) && AllStop(Replaced(text, sets[0].0, sets[0].1), sets[1..]))
  }

  ghost function AllReplaced(text: string, sets: seq<(string, string)>): string
    requires AllStop(text, sets)
    decreases |sets|
  {
    if sets == [] then text else AllReplaced(Replaced(text, sets[0].0, sets[0].1), sets[1..])
  }

  /** The batch commands, each behind a space. */
  function BatchText(commands: seq<string>): string {
    if commands == [] then "" else " " + commands[0] + BatchText(commands[1..])
  }

  function SetText(sets: seq<(string, string)>): string {
    if sets == [] then "" else "set " + sets[0].0 + "=" + sets[0].1 + " & " + SetText(sets[1..])
  }

  lemma NextCommand(commands: seq<string>, i: nat, batch: string)
    requires i < |commands|
    ensures batch + BatchText(commands[i..]) == batch + (" " + commands[i]) + BatchText(commands[i + 1..])
  {
    assert commands[i..][1..] == commands[i + 1..];
  }

  method BatchCommands(commands: seq<string>) returns (batch: string)
    ensures batch == BatchText(commands)
  {
    batch := "";
    for i := 0 to |commands|
      invariant batch + BatchText(commands[i..]) == BatchText(commands)
    {
      NextCommand(commands, i, batch);
      batch := batch + (" " + commands[i]);
    }
    assert batch + "" == batch;
  }

  lemma NextKey(batch: string, sets: seq<(string, string)>, i: nat)
    requires i < |sets| && AllStop(batch, sets[i..])
    ensures var (key, value) := sets[i];
            && Stops(batch, key, value) && AllStop(Replaced(batch, key, value), sets[i + 1..])
            && AllReplaced(batch, sets[i..]) == AllReplaced(Replaced(batch, key, value), sets[i + 1..])
  {
    assert sets[i..][1..] == sets[i + 1..];
  }

  lemma NextSet(sets: seq<(string, string)>, i: nat, setString: string)
    requires i < |sets|
    ensures setString + SetText(sets[i..])
         == setString + ("set " + sets[i].0 + "=" + sets[i].1 + " & ") + SetText(sets[i + 1..])
  {
    assert sets[i..][1..] == sets[i + 1..];
  }

  /** Builds the start-up command out of the batch commands and the configured keys. */
  method StartupCommand(commands: seq<string>, sets: seq<(string, string)>) returns (command: string)
    requires AllStop(BatchText(commands), sets)
    ensures command == SetText(sets) + AllReplaced(BatchText(commands), sets)
  {
    var batch := BatchCommands(commands);
    ghost var goal := AllReplaced(batch, sets);
    var setString := "";
    for i := 0 to |sets|
      invariant setString + SetText(sets[i..]) == SetText(sets)
      invariant AllStop(batch, sets[i..]) && AllReplaced(batch, sets[i..]) == goal
    {
      NextKey(batch, sets, i);
      NextSet(sets, i, setString);
      var (key, value) := sets[i];
      batch := ReplaceMarks(batch, key, value);
      setString := setString + ("set " + key + "=" + value + " & ");
    }
    assert setString + "" == setString;
    command := setString + batch;
  }

  // ---- The command, written out

  /** Each configured key adds its assignment behind those of the keys before it. */
  lemma {:induction false} SetTextGrows(sets: seq<(string, string)>, key: string, value: string)
    ensures SetText([]) == ""
    ensures SetText(sets + [(key, value)]) == SetText(sets) + ("set " + key + "=" + value + " & ")
  {
    if sets == [] {
      assert "set " + key + "=" + value + " & " + "" == "" + ("set " + key + "=" + value + " & ");
    } else {
      SetTextGrows(sets[1..], key, value);
      assert (sets + [(key, value)])[1..] == sets[1..] + [(key, value)];
      Regroup("set " + sets[0].0 + "=" + sets[0].1 + " & ", SetText(sets[1..]), "set " + key + "=" + value + " & ");
    }
  }

  /** Each batch command follows those before it, behind a space. */
  lemma {:induction false} BatchTextGrows(commands: seq<string>, command: string)
    ensures BatchText([]) == ""
    ensures BatchText(commands + [command]) == BatchText(commands) + (" " + command)
  {
    if commands == [] {
      assert " " + command + "" == "" + (" " + command);
    } else {
      BatchTextGrows(commands[1..], command);
      assert (commands + [command])[1..] == commands[1..] + [command];
      Regroup(" " + commands[0], BatchText(commands[1..]), " " + command);
    }
  }

  lemma Regroup(a: string, b: string, c: string)
    ensures (a + b) + c == a + (b + c)
  {
  }

  /** In plain text a key between two '%'s is replaced by its value, and nothing else is touched. */
  lemma OneMarkIsReplaced(a: string, key: string, b: string, value: string)
    requires '%' !in a + key + b + value
    ensures Stops(a + "%" + key + "%" + b, key, value)
    ensures Replaced(a + "%" + key + "%" + b, key, value) == a + value + b
  {
    var text := a + "%" + key + "%" + b;
    MarkBehind(a, key, b);
    NoMarkInPlain(a + value + b, key);
    assert text[..|a|] == a && text[|a| + |Mark(key)|..] == b;
    OneRound(text, key, value, a + value + b);
  }

  lemma MarkBehind(a: string, key: string, b: string)
    requires '%' !in a
    ensures Find(a + "%" + key + "%" + b, Mark(key)) == Some(|a|)
  {
    var text := a + "%" + key + "%" + b;
    assert text == a + Mark(key) + b;
    assert text[|a|..|a| + |Mark(key)|] == Mark(key);
    assert OccursAt(text, Mark(key), |a|);
    forall j: nat | j < |a| ensures !OccursAt(text, Mark(key), j) {
      assert text[j] == a[j];
    }
  }

  lemma NoMarkInPlain(text: string, key: string)
    requires '%' !in text
    ensures Find(text, Mark(key)).None?
  {
    forall j: nat | j + |Mark(key)| <= |text| ensures !OccursAt(text, Mark(key), j) {
      assert text[j..j + |Mark(key)|][0] == text[j] != '%';
    }
  }
}
