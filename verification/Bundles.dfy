/** The bundles of the managed container: reading them out of a listing, and building the string
    of bundles to start. */
module Bundles {
  import opened Options
  import opened Strings

  /** What is known of a bundle, with its restart counter and the times of its restarts. */
  datatype Info = Info(
    id: string,
    state: string,
    blueprint: string,
    spring: string,
    level: string,
    name: string,
    restarts: nat,
    attempts: seq<int>
  )

  class Bundle {
    var id: string
    var state: string
    var blueprint: string
    var spring: string
    var level: string
    var name: string
    var restartCount: nat
    var attemptTimes: seq<int>

    constructor ()
      ensures Data() == Info("", "", "", "", "", "", 0, [])
    {
      id, state, blueprint, spring, level, name := "", "", "", "", "", "";
      restartCount, attemptTimes := 0, [];
    }

    function Data(): Info
      reads this
    {
      Info(id, state, blueprint, spring, level, name, restartCount, attemptTimes)
    }

    method IncrementRestartCount()
      modifies this`restartCount
      ensures restartCount == old(restartCount) + 1
    {
      restartCount := restartCount + 1;
    }

    method AddRestartAttemptTime(time: int)
      modifies this`attemptTimes
      ensures attemptTimes == old(attemptTimes) + [time]
    {
      attemptTimes := attemptTimes + [time];
    }
  }

  /** The values behind a map of bundles. */
  function Show(bundles: map<string, Bundle>): map<string, Info>
    reads bundles.Values
  {
    map n | n in bundles :: bundles[n].Data()
  }

  /** No bundle goes by two names. */
  ghost predicate Injective(bundles: map<string, Bundle>) {
    forall m, n | m in bundles && n in bundles && m != n :: bundles[m] != bundles[n]
  }

  // ---- Which bundles are started

  predicate ShouldStart(info: Info) {
    info.spring != "Started" && info.spring != "Waiting"
  }

  /** The names out of a list that get started: the known bundles whose spring state asks for it,
      in the order of the list, as often as they are listed. */
  function Emitted(m: map<string, Info>, names: seq<string>): (r: seq<string>)
    ensures forall i | 0 <= i < |r| :: r[i] in m
  {
    if names == [] then []
    else
      var last := names[|names| - 1];
      Emitted(m, names[..|names| - 1]) + if last in m && ShouldStart(m[last]) then [last] else []
  }

  /** The ids of some bundles, a space behind each. */
  function IdText(m: map<string, Info>, names: seq<string>): string
    requires forall i | 0 <= i < |names| :: names[i] in m
  {
    if names == [] then "" else IdText(m, names[..|names| - 1]) + (m[names[|names| - 1]].id + " ")
  }

  function Bump(info: Info, times: nat, now: int): Info {
    info.(restarts := info.restarts + times, attempts := info.attempts + seq(times, _ => now))
  }

  lemma BumpOnce(info: Info, times: nat, now: int)
    ensures Bump(Bump(info, times, now), 1, now) == Bump(info, times + 1, now)
    ensures Bump(info, 0, now) == info
  {
    assert info.attempts + seq(times, _ => now) + seq(1, _ => now) == info.attempts + seq(times + 1, _ => now);
    assert info.attempts + seq(0, _ => now) == info.attempts;
  }

  /** How many of the names lead to bundle `b`. */
  function Hits(bundles: map<string, Bundle>, names: seq<string>, b: Bundle): nat {
    if names == [] then 0
    else
      var last := names[|names| - 1];
      Hits(bundles, names[..|names| - 1], b) + if last in bundles && bundles[last] == b then 1 else 0
  }

  /** One restart of the bundle called `name`, seen under every name it goes by. */
  function Noted(bundles: map<string, Bundle>, m: map<string, Info>, name: string, now: int): (r: map<string, Info>)
    requires name in bundles && m.Keys == bundles.Keys
    ensures r.Keys == m.Keys
  {
    map n | n in m :: if bundles[n] == bundles[name] then Bump(m[n], 1, now) else m[n]
  }

  function AllNoted(bundles: map<string, Bundle>, m: map<string, Info>, names: seq<string>, now: int)
    : (r: map<string, Info>)
    requires m.Keys == bundles.Keys && forall i | 0 <= i < |names| :: names[i] in m
    ensures r.Keys == m.Keys
  {
    if names == [] then m
    else Noted(bundles, AllNoted(bundles, m, names[..|names| - 1], now), names[|names| - 1], now)
  }

  /** The listed names have been gone through since the bundles were as in `m`. */
  ghost predicate Started(bundles: map<string, Bundle>, m: map<string, Info>, names: seq<string>, ids: string, now: int)
    reads bundles.Values
  {
    && m.Keys == bundles.Keys
    && Show(bundles) == AllNoted(bundles, m, Emitted(m, names), now)
    && ids == IdText(m, Emitted(m, names))
  }

  /** All names of a bundle show the same spring state: one that has started or is waiting is never
      emitted, any other whenever a name of its is listed. */
  lemma {:induction false} HitsOfEmitted(bundles: map<string, Bundle>, m: map<string, Info>, names: seq<string>,
                                         n: string)
    requires m == Show(bundles) && n in m
    ensures Hits(bundles, Emitted(m, names), bundles[n])
         == if m[n].spring != "Started" && m[n].spring != "Waiting" then Hits(bundles, names, bundles[n]) else 0
  {
    if names != [] {
      var front, last := names[..|names| - 1], names[|names| - 1];
      HitsOfEmitted(bundles, m, front, n);
      HitsSnoc(bundles, Emitted(m, front), last, bundles[n]);
      if last in m {
        assert m[last] == bundles[last].Data() && m[n] == bundles[n].Data();
      }
    }
  }

  lemma HitsSnoc(bundles: map<string, Bundle>, names: seq<string>, name: string, b: Bundle)
    ensures Hits(bundles, names + [name], b)
         == Hits(bundles, names, b) + if name in bundles && bundles[name] == b then 1 else 0
    ensures names + [] == names
  {
    assert (names + [name])[..|names|] == names;
  }

  /** How often a bundle is restarted, whatever names it goes by. */
  lemma NotesWrittenOut(bundles: map<string, Bundle>, m: map<string, Info>, names: seq<string>, now: int, n: string)
    requires m == Show(bundles) && n in m
    ensures var after := AllNoted(bundles, m, Emitted(m, names), now);
            var times := if m[n].spring != "Started" && m[n].spring != "Waiting"
                         then Hits(bundles, names, bundles[n]) else 0;
            && after[n].restarts == m[n].restarts + times
            && after[n].attempts == m[n].attempts + seq(times, _ => now)
  {
    HitsOfEmitted(bundles, m, names, n);
    NotedCounts(bundles, m, Emitted(m, names), now, n);
  }

  /** Builds the argument of the start command and notes each restart in its bundle. */
  method BuildBundlesToStart(bundles: map<string, Bundle>, dead: seq<string>, failed: seq<string>,
                             keepAlive: seq<string>, system: seq<string>, now: int)
    returns (ids: string)
    modifies bundles.Values`restartCount, bundles.Values`attemptTimes
    ensures var m := old(Show(bundles));
            var emitted := Emitted(m, system + keepAlive);
            ids == IdText(m, emitted) && Show(bundles) == AllNoted(bundles, m, emitted, now)
    ensures forall n | n in bundles ::
              var times := if bundles[n].spring != "Started" && bundles[n].spring != "Waiting"
                           then Hits(bundles, system + keepAlive, bundles[n]) else 0;
              && bundles[n].restartCount == old(bundles[n].restartCount) + times
              && bundles[n].attemptTimes == old(bundles[n].attemptTimes) + seq(times, _ => now)
  {
    ghost var m := Show(bundles);
    forall n | n in m {
      NotesWrittenOut(bundles, m, system + keepAlive, now, n);
    }
    ids := StartListed(bundles, m, [], system, "", now);
    assert [] + system == system;
    ids := StartListed(bundles, m, system, keepAlive, ids, now);
  }

  /** One list: the names in `before` have been gone through since the bundles were as in `m`. */
  method StartListed(bundles: map<string, Bundle>, ghost m: map<string, Info>, ghost before: seq<string>,
                     names: seq<string>, ids: string, now: int)
    returns (r: string)
    requires Started(bundles, m, before, ids, now)
    modifies bundles.Values`restartCount, bundles.Values`attemptTimes
    ensures Started(bundles, m, before + names, r, now)
  {
    r := ids;
    ghost var gone := before;
    for i := 0 to |names|
      invariant gone == before + names[..i]
      invariant Started(bundles, m, gone, r, now)
    {
      r := StartIfKnown(bundles, m, gone, names[i], r, now);
      gone := gone + [names[i]];
    }
    assert names[..|names|] == names;
  }

  /** The body of the loop over a list. */
  method StartIfKnown(bundles: map<string, Bundle>, ghost m: map<string, Info>, ghost before: seq<string>,
                      name: string, ids: string, now: int)
    returns (r: string)
    requires Started(bundles, m, before, ids, now)
    modifies bundles.Values`restartCount, bundles.Values`attemptTimes
    ensures Started(bundles, m, before + [name], r, now)
  {
    r := ids;
    ghost var emitted := Emitted(m, before);
    EmittedStep(m, before, name);
    if name in bundles {
      var bundle := bundles[name];
      NotedCounts(bundles, m, emitted, now, name);
      assert Show(bundles)[name] == bundle.Data();
      if bundle.spring != "Started" && bundle.spring != "Waiting" {
        r := r + (bundle.id + " ");
        NoteRestart(bundles, name, bundle, now);
        NotedSnoc(bundles, m, emitted, name, now);
      }
    }
  }

  method NoteRestart(ghost bundles: map<string, Bundle>, ghost name: string, bundle: Bundle, now: int)
    requires name in bundles && bundles[name] == bundle
    modifies bundle`restartCount, bundle`attemptTimes
    ensures Show(bundles) == Noted(bundles, old(Show(bundles)), name, now)
  {
    ghost var before := bundle.Data();
    bundle.IncrementRestartCount();
    bundle.AddRestartAttemptTime(now);
    assert bundle.Data() == Bump(before, 1, now) by {
      assert [now] == seq(1, _ => now);
    }
  }

  lemma NotedSnoc(bundles: map<string, Bundle>, m: map<string, Info>, names: seq<string>, name: string, now: int)
    requires m.Keys == bundles.Keys && name in m && forall i | 0 <= i < |names| :: names[i] in m
    ensures AllNoted(bundles, m, names + [name], now) == Noted(bundles, AllNoted(bundles, m, names, now), name, now)
    ensures IdText(m, names + [name]) == IdText(m, names) + (m[name].id + " ")
  {
    assert (names + [name])[..|names|] == names;
  }

  /** Each bundle is restarted once for every emitted name that leads to it. */
  lemma {:induction false} NotedCounts(bundles: map<string, Bundle>, m: map<string, Info>, names: seq<string>,
                                             now: int, n: string)
    requires m.Keys == bundles.Keys && n in m && forall i | 0 <= i < |names| :: names[i] in m
    ensures AllNoted(bundles, m, names, now)[n] == Bump(m[n], Hits(bundles, names, bundles[n]), now)
  {
    if names == [] {
      BumpOnce(m[n], 0, now);
    } else {
      var front := names[..|names| - 1];
      NotedCounts(bundles, m, front, now, n);
      BumpOnce(m[n], Hits(bundles, front, bundles[n]), now);
    }
  }

  lemma EmittedStep(m: map<string, Info>, names: seq<string>, name: string)
    ensures Emitted(m, names + [name]) == Emitted(m, names) + if name in m && ShouldStart(m[name]) then [name] else []
    ensures !(name in m && ShouldStart(m[name])) ==> Emitted(m, names + [name]) == Emitted(m, names)
  {
    assert (names + [name])[..|names|] == names;
  }

  // ---- What the emitted names are, and what restarting does to the counters

  /** A name is emitted as often as it is listed if it stands for a bundle that should start, and
      not at all otherwise. */
  lemma {:induction false} EmittedCounts(m: map<string, Info>, names: seq<string>, n: string)
    ensures multiset(Emitted(m, names))[n]
         == if n in m && m[n].spring != "Started" && m[n].spring != "Waiting" then multiset(names)[n] else 0
  {
    if names != [] {
      EmittedCounts(m, names[..|names| - 1], n);
      assert names == names[..|names| - 1] + [names[|names| - 1]];
    }
  }

  /** The start string, name by name: the id of a known bundle that is neither started nor waiting,
      and a space behind it. */
  lemma IdTextGrows(m: map<string, Info>, names: seq<string>, name: string)
    ensures IdText(m, Emitted(m, [])) == ""
    ensures IdText(m, Emitted(m, names + [name])) == IdText(m, Emitted(m, names))
         + if name in m && m[name].spring != "Started" && m[name].spring != "Waiting" then m[name].id + " " else ""
  {
    EmittedStep(m, names, name);
    var e := Emitted(m, names);
    assert (e + [name])[..|e|] == e;
    assert IdText(m, e) + "" == IdText(m, e);
  }

  /** Whether `a` is what is left of `b` when some elements are dropped. */
  predicate Subsequence(a: seq<string>, b: seq<string>) {
    if a == [] then true
    else if b == [] then false
    else if a[|a| - 1] == b[|b| - 1] then Subsequence(a[..|a| - 1], b[..|b| - 1])
    else Subsequence(a, b[..|b| - 1])
  }

  lemma LastIsCounted(s: seq<string>)
    requires s != []
    ensures multiset(s)[s[|s| - 1]] > 0
  {
    assert s[|s| - 1] in s;
  }

  /** The order is that of the list. */
  lemma {:induction false} EmittedInOrder(m: map<string, Info>, names: seq<string>)
    ensures Subsequence(Emitted(m, names), names)
  {
    if names != [] {
      var front, last := names[..|names| - 1], names[|names| - 1];
      EmittedInOrder(m, front);
      var e := Emitted(m, front);
      if last in m && ShouldStart(m[last]) {
        assert (e + [last])[..|e|] == e;
      } else {
        assert e + [] == e;
        if e != [] && e[|e| - 1] == last {
          EmittedCounts(m, front, last);
          LastIsCounted(e);
          assert false;
        }
      }
    }
  }

  /** The bundles after each of the emitted names has been restarted. */
  function Restarted(m: map<string, Info>, names: seq<string>, now: int): (r: map<string, Info>)
    requires forall i | 0 <= i < |names| :: names[i] in m
    ensures r.Keys == m.Keys
  {
    if names == [] then m
    else
      var last := names[|names| - 1];
      var front := Restarted(m, names[..|names| - 1], now);
      front[last := Bump(front[last], 1, now)]
  }

  lemma {:induction false} RestartedAt(m: map<string, Info>, names: seq<string>, now: int, n: string)
    requires (forall i | 0 <= i < |names| :: names[i] in m) && n in m
    ensures Restarted(m, names, now)[n] == Bump(m[n], multiset(names)[n], now)
  {
    if names == [] {
      BumpOnce(m[n], 0, now);
    } else {
      var front := names[..|names| - 1];
      RestartedAt(m, front, now, n);
      assert names == front + [names[|names| - 1]];
      BumpOnce(m[n], multiset(front)[n], now);
    }
  }

  lemma {:induction false} HitsOfOwnName(bundles: map<string, Bundle>, names: seq<string>, n: string)
    requires Injective(bundles) && n in bundles
    ensures Hits(bundles, names, bundles[n]) == multiset(names)[n]
  {
    if names != [] {
      var front := names[..|names| - 1];
      HitsOfOwnName(bundles, front, n);
      assert names == front + [names[|names| - 1]];
    }
  }

  /** How often a bundle is restarted for some listed names: once for each time it is listed, unless
      it has started or is waiting. */
  lemma RestartsWrittenOut(m: map<string, Info>, names: seq<string>, now: int, n: string)
    requires n in m
    ensures var after := Restarted(m, Emitted(m, names), now);
            var times := if m[n].spring != "Started" && m[n].spring != "Waiting" then multiset(names)[n] else 0;
            && n in after && after[n].restarts == m[n].restarts + times
            && after[n].attempts == m[n].attempts + seq(times, _ => now)
            && after[n] == m[n].(restarts := after[n].restarts, attempts := after[n].attempts)
  {
    EmittedCounts(m, names, n);
    RestartedAt(m, Emitted(m, names), now, n);
  }

  /** Where no bundle goes by two names, each name is restarted for itself. */
  lemma NotedOwnNames(bundles: map<string, Bundle>, m: map<string, Info>, names: seq<string>, now: int)
    requires Injective(bundles) && m.Keys == bundles.Keys && forall i | 0 <= i < |names| :: names[i] in m
    ensures AllNoted(bundles, m, names, now) == Restarted(m, names, now)
  {
    forall n | n in m ensures AllNoted(bundles, m, names, now)[n] == Restarted(m, names, now)[n] {
      NotedCounts(bundles, m, names, now, n);
      HitsOfOwnName(bundles, names, n);
      RestartedAt(m, names, now, n);
    }
  }

  /** The start string for a map in which no bundle goes by two names, such as listings give:
      each name is restarted for itself. */
  method BuildFromListing(bundles: map<string, Bundle>, keepAlive: seq<string>, system: seq<string>, now: int)
    returns (ids: string, ghost after: map<string, Info>)
    requires Injective(bundles)
    modifies bundles.Values`restartCount, bundles.Values`attemptTimes
    ensures ids == IdText(old(Show(bundles)), Emitted(old(Show(bundles)), system + keepAlive))
    ensures after == Restarted(old(Show(bundles)), Emitted(old(Show(bundles)), system + keepAlive), now)
    ensures Show(bundles) == after
    ensures forall n | n in after ::
              var info := old(Show(bundles))[n];
              var times := if info.spring != "Started" && info.spring != "Waiting"
                           then multiset(system + keepAlive)[n] else 0;
              && after[n].restarts == info.restarts + times
              && after[n].attempts == info.attempts + seq(times, _ => now)
  {
    ghost var m := Show(bundles);
    forall n | n in m {
      RestartsWrittenOut(m, system + keepAlive, now, n);
    }
    NotedOwnNames(bundles, m, Emitted(m, system + keepAlive), now);
    ids := BuildBundlesToStart(bundles, [], [], keepAlive, system, now);
    after := Show(bundles);
  }

  /** The sum of the restart counters of some bundles. */
  ghost function RestartSum(m: map<string, Info>, keys: set<string>): nat
    requires keys <= m.Keys
  {
    if keys == {} then 0
    else
      var k :| k in keys;
      m[k].restarts + RestartSum(m, keys - {k})
  }

  lemma {:induction false} RestartSumWithout(m: map<string, Info>, keys: set<string>, k: string)
    requires keys <= m.Keys && k in keys
    ensures RestartSum(m, keys) == m[k].restarts + RestartSum(m, keys - {k})
    decreases keys
  {
    var j :| j in keys && RestartSum(m, keys) == m[j].restarts + RestartSum(m, keys - {j});
    if j != k {
      RestartSumWithout(m, keys - {j}, k);
      RestartSumWithout(m, keys - {k}, j);
      assert keys - {j} - {k} == keys - {k} - {j};
    }
  }

  lemma {:induction false} RestartSumElsewhere(m: map<string, Info>, keys: set<string>, n: string, info: Info)
    requires keys <= m.Keys && n !in keys
    ensures RestartSum(m[n := info], keys) == RestartSum(m, keys)
    decreases keys
  {
    if keys != {} {
      var k :| k in keys;
      RestartSumWithout(m, keys, k);
      RestartSumWithout(m[n := info], keys, k);
      RestartSumElsewhere(m, keys - {k}, n, info);
    }
  }

  /** Nothing is lost: the counters together grow by the number of emitted ids. */
  lemma {:induction false} RestartsAreConserved(m: map<string, Info>, names: seq<string>, now: int)
    requires forall i | 0 <= i < |names| :: names[i] in m
    ensures RestartSum(Restarted(m, names, now), m.Keys) == RestartSum(m, m.Keys) + |names|
  {
    if names != [] {
      var front, last := names[..|names| - 1], names[|names| - 1];
      RestartsAreConserved(m, front, now);
      var before := Restarted(m, front, now);
      RestartSumWithout(before, m.Keys, last);
      RestartSumWithout(Restarted(m, names, now), m.Keys, last);
      RestartSumElsewhere(before, m.Keys - {last}, last, Bump(before[last], 1, now));
    }
  }

  // ---- Listings

  /** What the list parser captures from a line. */
  datatype Fields = Fields(id: string, state: string, blueprint: string, spring: string, level: string, name: string)

  function InfoOf(f: Fields): Info {
    Info(Trim(f.id), Trim(f.state), Trim(f.blueprint), Trim(f.spring), Trim(f.level), Trim(f.name), 0, [])
  }

  /** One more line of a listing. */
  function WithLine(m: map<string, Info>, line: string, parse: string -> Option<Fields>): map<string, Info> {
    match parse(line)
    case None => m
    case Some(f) => m[Trim(f.name) := InfoOf(f)]
  }

  /** The bundles of the first lines of a listing; a later line replaces an earlier one of the
      same name. */
  function Listed(lines: seq<string>, parse: string -> Option<Fields>): map<string, Info> {
    if lines == [] then map[] else WithLine(Listed(lines[..|lines| - 1], parse), lines[|lines| - 1], parse)
  }

  /** The lines that count: all but the two heading lines. */
  function BundleLines(listing: string): seq<string> {
    var lines := Split(listing, '\n');
    if |lines| < 2 then [] else lines[2..]
  }

  /** The first two lines do not count, whatever they are; a text of fewer lines has none that do. */
  lemma HeadingsAreSkipped(first: string, second: string, rest: string)
    requires '\n' !in first && '\n' !in second
    ensures BundleLines(first + "\n" + second + "\n" + rest) == Split(rest, '\n')
    ensures BundleLines(first) == BundleLines(first + "\n" + second) == []
  {
    OneLine(second, rest);
    OneLine(first, second);
    OneLine(first, second + "\n" + rest);
    TwoHeadings(first, second, rest);
  }

  lemma OneLine(line: string, rest: string)
    requires '\n' !in line
    ensures Split(line, '\n') == [line] && Split(line + "\n" + rest, '\n') == [line] + Split(rest, '\n')
  {
    SplitPlain(line, rest, '\n');
  }

  lemma TwoHeadings(first: string, second: string, rest: string)
    ensures first + "\n" + second + "\n" + rest == first + "\n" + (second + "\n" + rest)
  {
  }

  method ReadBundle(f: Fields) returns (bundle: Bundle)
    ensures fresh(bundle) && bundle.Data() == InfoOf(f)
  {
    bundle := new Bundle();
    bundle.id := Trim(f.id);
    bundle.state := Trim(f.state);
    bundle.blueprint := Trim(f.blueprint);
    bundle.spring := Trim(f.spring);
    bundle.level := Trim(f.level);
    bundle.name := Trim(f.name);
  }

  method AddBundle(bundles: map<string, Bundle>, f: Fields) returns (r: map<string, Bundle>)
    requires Injective(bundles)
    ensures fresh(r.Values - bundles.Values) && Injective(r)
    ensures Show(r) == Show(bundles)[Trim(f.name) := InfoOf(f)]
  {
    var bundle := ReadBundle(f);
    InjectiveUpdated(bundles, bundle.name, bundle);
    ShowUpdated(bundles, bundle.name, bundle);
    r := bundles[bundle.name := bundle];
  }

  lemma ShowUpdated(bundles: map<string, Bundle>, n: string, b: Bundle)
    ensures Show(bundles[n := b]) == Show(bundles)[n := b.Data()]
  {
  }

  lemma InjectiveUpdated(bundles: map<string, Bundle>, n: string, b: Bundle)
    requires Injective(bundles) && b !in bundles.Values
    ensures Injective(bundles[n := b])
  {
    forall k | k in bundles ensures bundles[k] != b {
      assert bundles[k] in bundles.Values;
    }
  }

  lemma ListedSnoc(lines: seq<string>, line: string, parse: string -> Option<Fields>)
    ensures Listed(lines + [line], parse) == WithLine(Listed(lines, parse), line, parse)
  {
    assert (lines + [line])[..|lines|] == lines;
  }

  method ReadLine(bundles: map<string, Bundle>, line: string, parse: string -> Option<Fields>)
    returns (r: map<string, Bundle>)
    requires Injective(bundles)
    ensures fresh(r.Values - bundles.Values) && Injective(r)
    ensures Show(r) == WithLine(Show(bundles), line, parse)
  {
    match parse(line) {
      case None => r := bundles;
      case Some(f) => r := AddBundle(bundles, f);
    }
  }

  /** Reads a listing. `parse` is the configured list parser, applied to one line. */
  method MapBundleNamesToBundles(listing: string, parse: string -> Option<Fields>)
    returns (bundles: map<string, Bundle>)
    ensures fresh(bundles.Values) && Injective(bundles)
    ensures Show(bundles) == Listed(BundleLines(listing), parse)
  {
    bundles := map[];
    var lines := Split(listing, '\n');
    if |lines| < 2 {
      return;
    }
    ghost var done: seq<string> := [];
    for i := 2 to |lines|
      invariant done == lines[2..i]
      invariant fresh(bundles.Values) && Injective(bundles) && Show(bundles) == Listed(done, parse)
    {
      ListedSnoc(done, lines[i], parse);
      bundles := ReadLine(bundles, lines[i], parse);
      done := done + [lines[i]];
    }
    assert done == lines[2..];
  }

  /** Line `i` is read as a bundle of name `n`. */
  predicate Names(lines: seq<string>, parse: string -> Option<Fields>, i: nat, n: string) {
    i < |lines| && parse(lines[i]).Some? && Trim(parse(lines[i]).value.name) == n
  }

  lemma {:induction false} ListedLastLine(lines: seq<string>, parse: string -> Option<Fields>, n: string, i: nat)
    requires Names(lines, parse, i, n) && forall j | i < j < |lines| :: !Names(lines, parse, j, n)
    ensures n in Listed(lines, parse)
    ensures Listed(lines, parse)[n]
         == (var f := parse(lines[i]).value;
             Info(Trim(f.id), Trim(f.state), Trim(f.blueprint), Trim(f.spring), Trim(f.level), Trim(f.name), 0, []))
    decreases |lines|
  {
    var front := lines[..|lines| - 1];
    if i < |front| {
      assert !Names(lines, parse, |front|, n);
      assert forall j | i < j < |front| :: Names(front, parse, j, n) <==> Names(lines, parse, j, n);
      ListedLastLine(front, parse, n, i);
    }
  }

  lemma {:induction false} ListedIsNamed(lines: seq<string>, parse: string -> Option<Fields>, n: string)
    returns (i: nat)
    requires n in Listed(lines, parse)
    ensures Names(lines, parse, i, n)
    decreases |lines|
  {
    var front := lines[..|lines| - 1];
    if n in Listed(front, parse) {
      i := ListedIsNamed(front, parse, n);
    } else {
      i := |front|;
    }
  }

  lemma {:induction false} NamedIsListed(lines: seq<string>, parse: string -> Option<Fields>, n: string, i: nat)
    requires Names(lines, parse, i, n)
    ensures n in Listed(lines, parse)
    decreases |lines|
  {
    var front := lines[..|lines| - 1];
    if i < |front| {
      NamedIsListed(front, parse, n, i);
    }
  }

  /** A bundle is listed if and only if some line names it. */
  lemma ListedIffNamed(lines: seq<string>, parse: string -> Option<Fields>, n: string)
    ensures n in Listed(lines, parse) <==> exists i: nat :: Names(lines, parse, i, n)
  {
    if n in Listed(lines, parse) {
      var i := ListedIsNamed(lines, parse, n);
    }
    forall i: nat | Names(lines, parse, i, n) ensures n in Listed(lines, parse) {
      NamedIsListed(lines, parse, n, i);
    }
  }
}
