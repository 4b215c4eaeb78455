/** What the start string of a list command has to do with the listing it was brought: the
    snapshot it comes from is replaced only when its size changes. */
module Freshness {
  import opened Strings
  import opened Bundles
  import opened Listings
  import opened Monitor

  /** The ids a list command should emit for what it has just been told. */
  function FreshIds(s: MonitorState, listing: map<string, Info>): string {
    IdText(listing, Emitted(listing, s.system + s.process))
  }

  // ---- When the ids are those of the listing

  function Blank(name: string, spring: string): Info {
    Info("", "", "", spring, "", name, 0, [])
  }

  /** A listing of `n` bundles, `name` among them, all in one spring state. */
  function Alike(name: string, n: nat, spring: string): (m: map<string, Info>)
    ensures |m| == n
    ensures forall k :: k in m ==> |k| < |name| + n && m[k] == Blank(k, spring)
    ensures n > 0 ==> name in m
  {
    if n == 0 then map[]
    else
      var rest := Alike(name, n - 1, spring);
      var last := if n == 1 then name else Pluses(|name| + n - 1);
      assert last !in rest;
      assert rest[last := Blank(last, spring)].Keys == rest.Keys + {last};
      rest[last := Blank(last, spring)]
  }

  lemma {:induction false} AlikeIsReadable(name: string, n: nat, spring: string)
    requires Listable(name) && Listable(spring)
    ensures Readable(Alike(name, n, spring))
  {
    if n > 0 {
      AlikeIsReadable(name, n - 1, spring);
      TrimmedWord(Pluses(|name| + n - 1));
      OneMoreIsReadable(Alike(name, n - 1, spring), if n == 1 then name else Pluses(|name| + n - 1), spring);
    }
  }

  lemma OneMoreIsReadable(m: map<string, Info>, name: string, spring: string)
    requires Readable(m) && Listable(name) && Listable(spring)
    ensures Readable(m[name := Blank(name, spring)])
  {
    TrimmedWord("");
  }

  lemma {:induction false} NothingToStart(m: map<string, Info>, names: seq<string>)
    requires forall i | 0 <= i < |names| :: names[i] in m ==> !ShouldStart(m[names[i]])
    ensures Emitted(m, names) == []
  {
    if names != [] {
      NothingToStart(m, names[..|names| - 1]);
    }
  }

  /** A name that is listed and should start puts something into the start string. */
  lemma SomethingToStart(m: map<string, Info>, names: seq<string>, name: string)
    requires name in names && name in m && ShouldStart(m[name])
    ensures IdText(m, Emitted(m, names)) != ""
  {
    EmittedCounts(m, names, name);
    assert multiset(names)[name] > 0;
    assert Emitted(m, names) != [];
  }

  /** Every listing of `n` bundles that can be received gets its own ids. */
  ghost predicate AlwaysFresh(s: MonitorState, n: nat) {
    forall listing, now | Received(listing) && |listing| == n ::
      AfterList(s, listing, now).toStart == FreshIds(s, listing)
  }

  /** None of the configured bundles has a name that a listing could show. */
  predicate NoneListable(s: MonitorState) {
    forall name | name in s.system + s.process :: !Listable(name)
  }

  predicate KeysListable(m: map<string, Info>) {
    forall n | n in m :: Listable(n)
  }

  lemma StaleWitness(s: MonitorState, name: string)
    requires name in s.system + s.process && Listable(name) && |s.snapshot| > 0
    ensures !AlwaysFresh(s, |s.snapshot|)
  {
    var n, names := |s.snapshot|, s.system + s.process;
    var started, failed := Alike(name, n, "Started"), Alike(name, n, "Failed");
    TrimmedWord("Started");
    TrimmedWord("Failed");
    AlikeIsReadable(name, n, "Started");
    AlikeIsReadable(name, n, "Failed");
    ReadableIsExact(started);
    ReadableIsExact(failed);
    NothingToStart(started, names);
    SomethingToStart(failed, names, name);
    assert AfterList(s, started, 0).toStart == AfterList(s, failed, 0).toStart;
    assert FreshIds(s, started) != FreshIds(s, failed);
  }

  lemma FreshUnlessSameSize(s: MonitorState, listing: map<string, Info>, now: int)
    requires |listing| != |s.snapshot| || |listing| == 0
    ensures AfterList(s, listing, now).toStart == FreshIds(s, listing)
  {
    if |listing| == 0 {
      assert listing == map[];
    }
  }

  lemma FreshWithoutNames(s: MonitorState, listing: map<string, Info>, now: int)
    requires NoneListable(s) && KeysListable(s.snapshot) && KeysListable(listing)
    ensures AfterList(s, listing, now).toStart == FreshIds(s, listing)
  {
    NothingToStart(s.snapshot, s.system + s.process);
    NothingToStart(listing, s.system + s.process);
  }

  /** A list command emits the ids of the listing it was brought, for every listing of `n` bundles
      that can be received, if and only if that is not the size of the snapshot, or there are no
      bundles at all, or none of the configured names can be listed. */
  lemma FreshnessIsExact(s: MonitorState, n: nat)
    requires KeysListable(s.snapshot)
    ensures AlwaysFresh(s, n) <==> n != |s.snapshot| || n == 0 || NoneListable(s)
  {
    if n == |s.snapshot| && n > 0 && !NoneListable(s) {
      var name :| name in s.system + s.process && Listable(name);
      StaleWitness(s, name);
    } else {
      forall listing, now | Received(listing) && |listing| == n
        ensures AfterList(s, listing, now).toStart == FreshIds(s, listing)
      {
        ReadableIsExact(listing);
        if n != |s.snapshot| || n == 0 {
          FreshUnlessSameSize(s, listing, now);
        } else {
          FreshWithoutNames(s, listing, now);
        }
      }
    }
  }

  /** Every listing of the run can be received. */
  ghost predicate AllReceived(events: seq<MonitorEvent>) {
    forall i | 0 <= i < |events| && events[i].Tick? :: Received(events[i].listing)
  }

  lemma KeysAfterEvent(s: MonitorState, e: MonitorEvent)
    ensures var t := AfterEvent(s, e);
            t.snapshot.Keys == s.snapshot.Keys || (e.Tick? && t.snapshot.Keys == e.listing.Keys)
  {
  }

  lemma SameKeysListable(a: map<string, Info>, b: map<string, Info>)
    requires a.Keys == b.Keys && KeysListable(a)
    ensures KeysListable(b)
  {
  }

  lemma ReceivedKeysListable(m: map<string, Info>)
    requires Received(m)
    ensures KeysListable(m)
  {
    ReadableIsExact(m);
  }

  lemma EventKeepsKeysListable(s: MonitorState, e: MonitorEvent)
    requires KeysListable(s.snapshot) && (e.Tick? ==> Received(e.listing))
    ensures KeysListable(AfterEvent(s, e).snapshot)
  {
    var t := AfterEvent(s, e);
    KeysAfterEvent(s, e);
    if t.snapshot.Keys == s.snapshot.Keys {
      SameKeysListable(s.snapshot, t.snapshot);
    } else {
      ReceivedKeysListable(e.listing);
      SameKeysListable(e.listing, t.snapshot);
    }
  }

  lemma {:induction false} RunKeepsKeysListable(s: MonitorState, events: seq<MonitorEvent>)
    requires KeysListable(s.snapshot) && AllReceived(events)
    ensures KeysListable(AfterEvents(s, events).snapshot)
    decreases |events|
  {
    if events != [] {
      EventKeepsKeysListable(s, events[0]);
      RunKeepsKeysListable(AfterEvent(s, events[0]), events[1..]);
    }
  }

  /** The same for every state the monitor gets into. */
  lemma FreshnessInRuns(system: seq<string>, process: seq<string>, events: seq<MonitorEvent>, n: nat)
    requires AllReceived(events)
    ensures var s := AfterEvents(InitMonitor(system, process), events);
            AlwaysFresh(s, n) <==> n != |s.snapshot| || n == 0 || NoneListable(s)
  {
    RunKeepsKeysListable(InitMonitor(system, process), events);
    FreshnessIsExact(AfterEvents(InitMonitor(system, process), events), n);
  }

  // ---- How long they stay

  /** Two snapshots that differ in nothing the start string is made of. */
  predicate StartAlike(a: map<string, Info>, b: map<string, Info>) {
    a.Keys == b.Keys && forall n | n in a :: b[n].id == a[n].id && b[n].spring == a[n].spring
  }

  lemma RestartedStartsAlike(m: map<string, Info>, names: seq<string>, now: int)
    requires forall i | 0 <= i < |names| :: names[i] in m
    ensures StartAlike(m, Restarted(m, names, now)) && |Restarted(m, names, now)| == |m|
  {
    var r := Restarted(m, names, now);
    forall n | n in m ensures r[n].id == m[n].id && r[n].spring == m[n].spring {
      RestartedAt(m, names, now, n);
    }
    SameSizeAfterRestart(m, names, now);
  }

  lemma {:induction false} EmittedAlike(a: map<string, Info>, b: map<string, Info>, names: seq<string>)
    requires StartAlike(a, b)
    ensures Emitted(a, names) == Emitted(b, names)
  {
    if names != [] {
      EmittedAlike(a, b, names[..|names| - 1]);
    }
  }

  lemma {:induction false} IdTextAlike(a: map<string, Info>, b: map<string, Info>, names: seq<string>)
    requires StartAlike(a, b) && forall i | 0 <= i < |names| :: names[i] in a
    ensures IdText(a, names) == IdText(b, names)
  {
    if names != [] {
      IdTextAlike(a, b, names[..|names| - 1]);
    }
  }

  /** Noting the restarts changes nothing that the next start string is made of. */
  lemma RestartKeepsIds(s: MonitorState, now: int)
    ensures var names := Emitted(s.snapshot, s.system + s.process);
            var after := Restarted(s.snapshot, names, now);
            FreshIds(s, after) == FreshIds(s, s.snapshot) && |after| == |s.snapshot|
  {
    var names := Emitted(s.snapshot, s.system + s.process);
    var after := Restarted(s.snapshot, names, now);
    RestartedStartsAlike(s.snapshot, names, now);
    EmittedAlike(s.snapshot, after, s.system + s.process);
    IdTextAlike(s.snapshot, after, names);
  }

  /** From entry `n` on, every list command emitted these ids. */
  predicate ListedAlways(fired: seq<Fired>, n: nat, ids: string) {
    forall k | n <= k < |fired| && fired[k].List? :: fired[k].ids == ids
  }

  /** The snapshot is as good as before: same size, same ids, same configuration. */
  predicate SameStart(s: MonitorState, t: MonitorState) {
    && |t.snapshot| == |s.snapshot| && t.system == s.system && t.process == s.process
    && FreshIds(t, t.snapshot) == FreshIds(s, s.snapshot)
  }

  lemma ListKeepsIds(s: MonitorState, listing: map<string, Info>, now: int)
    requires |listing| == |s.snapshot|
    ensures var t := AfterList(s, listing, now);
            SameStart(s, t) && t.fired == s.fired + [List(|listing|, FreshIds(s, s.snapshot))]
  {
    RestartKeepsIds(s, now);
  }

  lemma EventKeepsIds(s: MonitorState, e: MonitorEvent)
    requires e.Tick? ==> |e.listing| == |s.snapshot|
    ensures var t := AfterEvent(s, e);
            SameStart(s, t) && s.fired <= t.fired && ListedAlways(t.fired, |s.fired|, FreshIds(s, s.snapshot))
  {
    if e.Tick? && s.ready && !s.inProgress && s.last == GogoList {
      ListKeepsIds(s, e.listing, e.now);
    }
  }

  predicate TicksOfSize(events: seq<MonitorEvent>, n: nat) {
    forall i | 0 <= i < |events| && events[i].Tick? :: |events[i].listing| == n
  }

  lemma ListedOn(a: seq<Fired>, b: seq<Fired>, m: nat, ids: string)
    requires m <= |a| && a <= b && ListedAlways(a, m, ids) && ListedAlways(b, |a|, ids)
    ensures ListedAlways(b, m, ids)
  {
    forall k | m <= k < |b| && b[k].List? ensures b[k].ids == ids {
      if k < |a| {
        assert a[k] == b[k];
      }
    }
  }

  /** In every run in which no listing changes its size, every list command emits the ids of the
      snapshot the run began with, whatever the listings say. */
  lemma {:induction false} SameSizeKeepsIds(s: MonitorState, events: seq<MonitorEvent>)
    requires TicksOfSize(events, |s.snapshot|)
    ensures var t := AfterEvents(s, events);
            SameStart(s, t) && s.fired <= t.fired && ListedAlways(t.fired, |s.fired|, FreshIds(s, s.snapshot))
    decreases |events|
  {
    if events != [] {
      var u := AfterEvent(s, events[0]);
      EventKeepsIds(s, events[0]);
      SameSizeKeepsIds(u, events[1..]);
      ListedOn(u.fired, AfterEvents(u, events[1..]).fired, |s.fired|, FreshIds(s, s.snapshot));
    }
  }

  /** A listing of another size than the snapshot decides what is started, by its own list command
      and by every one after it, until a listing comes that has yet another size. */
  lemma ListingDecidesUntilSizeChanges(s: MonitorState, listing: map<string, Info>, now: int, events: seq<MonitorEvent>)
    requires |listing| != |s.snapshot| && TicksOfSize(events, |listing|)
    ensures ListedAlways(AfterEvents(AfterList(s, listing, now), events).fired, |s.fired|, FreshIds(s, listing))
  {
    var u, t := AfterTakeOver(s, listing), AfterList(s, listing, now);
    RestartKeepsIds(u, now);
    assert FreshIds(t, t.snapshot) == FreshIds(s, listing);
    SameSizeKeepsIds(t, events);
    ListedOn(t.fired, AfterEvents(t, events).fired, |s.fired|, FreshIds(s, listing));
  }

  // ---- A stale start in a run from the beginning

  /** The first tick, a round of the four commands, and a second list command. */
  function TwoLists(first: map<string, Info>, second: map<string, Info>): seq<MonitorEvent> {
    [Tick(first, 0), Tick(first, 1), Tick(first, 2), Tick(first, 3), Tick(first, 4), Tick(second, 5)]
  }

  lemma OneEvent(s: MonitorState, e: MonitorEvent, rest: seq<MonitorEvent>)
    ensures AfterEvents(s, [e] + rest) == AfterEvents(AfterEvent(s, e), rest)
  {
    assert ([e] + rest)[1..] == rest;
  }

  lemma InTwo(s: MonitorState, a: seq<MonitorEvent>, b: seq<MonitorEvent>)
    ensures AfterEvents(s, a + b) == AfterEvents(AfterEvents(s, a), b)
    decreases |a|
  {
    if a == [] {
      assert a + b == b;
    } else {
      assert (a + b)[1..] == a[1..] + b;
      InTwo(AfterEvent(s, a[0]), a[1..], b);
    }
  }

  /** The first tick fires nothing, the second is a list. */
  lemma FirstList(s: MonitorState, listing: map<string, Info>)
    requires s.ready && !s.inProgress && s.last == NoCommand && s.fired == [] && s.snapshot == map[]
    ensures var t := AfterEvents(s, [Tick(listing, 0), Tick(listing, 1)]);
            && t.ready && !t.inProgress && t.last == GogoStartBundle && t.toStop == s.toStop
            && t.fired == [List(|listing|, t.toStart)] && t.toStart == FreshIds(s, listing)
            && |t.snapshot| == |listing| && FreshIds(t, t.snapshot) == FreshIds(s, listing)
  {
    var s1 := AfterEvent(s, Tick(listing, 0));
    OneEvent(s, Tick(listing, 0), [Tick(listing, 1)]);
    OneEvent(s1, Tick(listing, 1), []);
    assert [Tick(listing, 0)] + [Tick(listing, 1)] == [Tick(listing, 0), Tick(listing, 1)];
    assert [Tick(listing, 1)] + [] == [Tick(listing, 1)];
    assert listing != map[] ==> |listing| != 0;
    assert AfterTakeOver(s1, listing).snapshot == listing;
    RestartKeepsIds(AfterTakeOver(s1, listing), 1);
  }

  /** The other three commands of the cycle leave the snapshot alone. */
  lemma RestOfCycle(s: MonitorState, listing: map<string, Info>)
    requires s.ready && !s.inProgress && s.last == GogoStartBundle
    ensures AfterEvents(s, [Tick(listing, 2), Tick(listing, 3), Tick(listing, 4)])
         == s.(fired := s.fired + [Start(s.toStart), Stop(s.toStop), SystemInfo], last := GogoList)
  {
    var a, b, c := Tick(listing, 2), Tick(listing, 3), Tick(listing, 4);
    var s1 := AfterEvent(s, a);
    var s2 := AfterEvent(s1, b);
    OneEvent(s, a, [b, c]);
    OneEvent(s1, b, [c]);
    OneEvent(s2, c, []);
    assert [a] + [b, c] == [a, b, c] && [b] + [c] == [b, c] && [c] + [] == [c];
    assert s.fired + [Start(s.toStart)] + [Stop(s.toStop)] + [SystemInfo]
        == s.fired + [Start(s.toStart), Stop(s.toStop), SystemInfo];
  }

  /** The monitor, run from the beginning, fires just these commands. */
  predicate Fires(system: seq<string>, process: seq<string>, events: seq<MonitorEvent>, fired: seq<Fired>) {
    AfterEvents(InitMonitor(system, process), events).fired == fired
  }

  /** After the first tick and a round of the four commands the next one is a list again. */
  lemma FirstRound(s: MonitorState, first: map<string, Info>) returns (u: MonitorState)
    requires s.ready && !s.inProgress && s.last == NoCommand && s.fired == [] && s.snapshot == map[] && s.toStop == ""
    ensures u == AfterEvents(s, [Tick(first, 0), Tick(first, 1), Tick(first, 2), Tick(first, 3), Tick(first, 4)])
    ensures u.ready && !u.inProgress && u.last == GogoList && |u.snapshot| == |first|
    ensures FreshIds(u, u.snapshot) == FreshIds(s, first)
    ensures u.fired == [List(|first|, FreshIds(s, first)), Start(FreshIds(s, first)), Stop(""), SystemInfo]
  {
    var a, b := [Tick(first, 0), Tick(first, 1)], [Tick(first, 2), Tick(first, 3), Tick(first, 4)];
    var t := AfterEvents(s, a);
    u := AfterEvents(t, b);
    assert [Tick(first, 0), Tick(first, 1), Tick(first, 2), Tick(first, 3), Tick(first, 4)] == a + b;
    InTwo(s, a, b);
    FirstList(s, first);
    RestOfCycle(t, first);
  }

  lemma SecondList(s: MonitorState, first: map<string, Info>, second: map<string, Info>)
    requires s.ready && !s.inProgress && s.last == NoCommand && s.fired == [] && s.snapshot == map[] && s.toStop == ""
    requires |first| == |second|
    ensures AfterEvents(s, TwoLists(first, second)).fired == ListedTwice(FreshIds(s, first), |first|)
  {
    var a := [Tick(first, 0), Tick(first, 1), Tick(first, 2), Tick(first, 3), Tick(first, 4)];
    assert TwoLists(first, second) == a + [Tick(second, 5)];
    InTwo(s, a, [Tick(second, 5)]);
    var u := FirstRound(s, first);
    LastTick(u, second);
    ListKeepsIds(u, second, 5);
  }

  lemma LastTick(s: MonitorState, listing: map<string, Info>)
    ensures AfterEvents(s, [Tick(listing, 5)]) == AfterTick(s, listing, 5)
  {
    OneEvent(s, Tick(listing, 5), []);
    assert [Tick(listing, 5)] + [] == [Tick(listing, 5)];
  }

  /** After the four commands of the cycle the second list repeats the ids of the first, if the
      two listings have the same size. */
  lemma SecondListRepeatsFirst(system: seq<string>, process: seq<string>,
                               first: map<string, Info>, second: map<string, Info>)
    requires |first| == |second|
    ensures Fires(system, process, TwoLists(first, second),
                  ListedTwice(FreshIds(InitMonitor(system, process), first), |first|))
  {
    SecondList(InitMonitor(system, process), first, second);
  }

  function ListedTwice(ids: string, size: nat): seq<Fired> {
    [List(size, ids), Start(ids), Stop(""), SystemInfo, List(size, ids)]
  }

  lemma OneBundle(name: string, info: Info)
    requires ShouldStart(info)
    ensures IdText(map[name := info], Emitted(map[name := info], [] + [name])) == info.id + " "
  {
    var m := map[name := info];
    assert [] + [name] == [name] && [name][..0] == [];
    assert Emitted(m, [name]) == [] + [name] == [name];
    assert IdText(m, [name]) == "" + (info.id + " ") == info.id + " ";
  }

  lemma StaleIds(name: string, info: Info)
    requires ShouldStart(info)
    ensures var s := InitMonitor([], [name]);
            && FreshIds(s, map[name := info]) == info.id + " "
            && FreshIds(s, map[name := info.(spring := "Started")]) == ""
  {
    OneBundle(name, info);
    NothingToStart(map[name := info.(spring := "Started")], [] + [name]);
  }

  lemma StaleListings(name: string, info: Info)
    requires ReadableInfo(info) && info.name == name
    ensures ReceivedInTurn(map[name := info], map[name := info.(spring := "Started")])
  {
    TrimmedWord("Started");
    ReceivedByOneParser(map[name := info], map[name := info.(spring := "Started")]);
  }

  /** A run from the beginning that starts a bundle again although the listing it has just read
      says that the bundle has started: for any bundle that should start, with two listings that
      one list parser reads out of two outputs. */
  lemma StaleRun(name: string, info: Info)
    requires ReadableInfo(info) && info.name == name && ShouldStart(info)
    ensures var first, second := map[name := info], map[name := info.(spring := "Started")];
            && ReceivedInTurn(first, second)
            && Fires([], [name], TwoLists(first, second), ListedTwice(info.id + " ", 1))
            && FreshIds(InitMonitor([], [name]), second) == ""
  {
    var first, second := map[name := info], map[name := info.(spring := "Started")];
    assert |first| == 1 && |second| == 1;
    StaleIds(name, info);
    SecondListRepeatsFirst([], [name], first, second);
    StaleListings(name, info);
  }
}
