/** The monitor service: once a tick, if the container is ready and no command is running, it
    fires the next command of its cycle. */
module Monitor {
  import opened Options
  import opened Bundles

  datatype Command = NoCommand | GogoList | GogoStartBundle | GogoStopBundle | GogoGetSystemInfo

  /** A command as it was fired: a list with the number of bundles it brought and the start
      string computed from it, a start or stop with its bundle ids, or an info. */
  datatype Fired = List(size: nat, ids: string) | Start(ids: string) | Stop(ids: string) | SystemInfo

  /** The monitor's fields. `fired` and `emitted` record its history: the commands so far, and
      the names emitted since the current snapshot was taken over. */
  datatype MonitorState = MonitorState(
    ready: bool,
    inProgress: bool,
    last: Command,
    system: seq<string>,
    process: seq<string>,
    snapshot: map<string, Info>,
    toStart: string,
    toStop: string,
    fired: seq<Fired>,
    emitted: seq<string>
  )

  function InitMonitor(system: seq<string>, process: seq<string>): MonitorState {
    MonitorState(true, false, NoCommand, system, process, map[], "", "", [], [])
  }

  /** The bundles of the snapshot that should start are emitted. `size` is that of the listing. */
  function AfterEmission(s: MonitorState, size: nat, now: int): MonitorState {
    var emitted := Emitted(s.snapshot, s.system + s.process);
    s.(snapshot := Restarted(s.snapshot, emitted, now),
       toStart := IdText(s.snapshot, emitted),
       last := GogoStartBundle,
       fired := s.fired + [List(size, IdText(s.snapshot, emitted))],
       emitted := s.emitted + emitted)
  }

  /** The snapshot is replaced only if the listing has another size. */
  function AfterTakeOver(s: MonitorState, listing: map<string, Info>): MonitorState {
    if |s.snapshot| != |listing| then s.(snapshot := listing, emitted := []) else s
  }

  /** A list command: the snapshot is brought up to date, then its bundles are started. */
  function AfterList(s: MonitorState, listing: map<string, Info>, now: int): MonitorState {
    AfterEmission(AfterTakeOver(s, listing), |listing|, now)
  }

  /** One tick. `listing` is what a list command would bring, `now` the time. */
  function AfterTick(s: MonitorState, listing: map<string, Info>, now: int): MonitorState {
    if !s.ready || s.inProgress then s
    else
      match s.last
      case GogoList => AfterList(s, listing, now)
      case GogoGetSystemInfo => s.(fired := s.fired + [SystemInfo], last := GogoList)
      case GogoStartBundle => s.(fired := s.fired + [Start(s.toStart)], last := GogoStopBundle)
      case GogoStopBundle => s.(fired := s.fired + [Stop(s.toStop)], last := GogoGetSystemInfo)
      case NoCommand => s.(last := GogoList)
  }

  datatype MonitorEvent =
    | Tick(listing: map<string, Info>, now: int)
    | SetReady(ready: bool)
    | SetInProgress(inProgress: bool)

  /** The bundles of a listing have never been restarted. */
  predicate NewListing(listing: map<string, Info>) {
    forall n | n in listing :: listing[n].restarts == 0 && listing[n].attempts == []
  }

  function AfterEvent(s: MonitorState, e: MonitorEvent): MonitorState {
    match e
    case Tick(listing, now) => AfterTick(s, listing, now)
    case SetReady(b) => s.(ready := b)
    case SetInProgress(b) => s.(inProgress := b)
  }

  function AfterEvents(s: MonitorState, events: seq<MonitorEvent>): MonitorState
    decreases |events|
  {
    if events == [] then s else AfterEvents(AfterEvent(s, events[0]), events[1..])
  }

  predicate NewListings(events: seq<MonitorEvent>) {
    forall i | 0 <= i < |events| && events[i].Tick? :: NewListing(events[i].listing)
  }

  // ---- The objects

  class MonitorService {
    var ready: bool
    var inProgress: bool
    var last: Command
    var systemBundles: seq<string>
    var processBundles: seq<string>
    var bundlesWithNameAndId: map<string, Bundle>
    var bundlesToStart: string
    var bundlesToStop: string

    /** The state of the monitor as a value, with the history of its commands. */
    ghost var state: MonitorState

    ghost predicate Valid()
      reads this, bundlesWithNameAndId.Values
    {
      && Injective(bundlesWithNameAndId)
      && state.ready == ready && state.inProgress == inProgress && state.last == last
      && state.system == systemBundles && state.process == processBundles
      && state.toStart == bundlesToStart && state.toStop == bundlesToStop
      && state.snapshot == Show(bundlesWithNameAndId)
    }

    /** Initialisation hands over to the monitor with the container ready and no command running. */
    constructor (system: seq<string>, process: seq<string>)
      ensures Valid() && bundlesWithNameAndId == map[]
      ensures state == InitMonitor(system, process)
    {
      ready, inProgress, last := true, false, NoCommand;
      systemBundles, processBundles := system, process;
      bundlesWithNameAndId := map[];
      bundlesToStart, bundlesToStop := "", "";
      state := InitMonitor(system, process);
    }

    method GogoReady(isReady: bool)
      requires Valid()
      modifies this`ready, this`state
      ensures Valid() && state == AfterEvent(old(state), SetReady(isReady))
    {
      ready := isReady;
      state := state.(ready := isReady);
    }

    method FireCommandOperationInProgress(isInProgress: bool)
      requires Valid()
      modifies this`inProgress, this`state
      ensures Valid() && state == AfterEvent(old(state), SetInProgress(isInProgress))
    {
      inProgress := isInProgress;
      state := state.(inProgress := isInProgress);
    }

    /** One round of the monitor loop. `output` is what the list command prints. */
    method OnTick(output: string, parse: string -> Option<Fields>, now: int)
      requires Valid()
      modifies this, bundlesWithNameAndId.Values
      ensures Valid() && state == AfterTick(old(state), Listed(BundleLines(output), parse), now)
      ensures fresh(bundlesWithNameAndId.Values - old(bundlesWithNameAndId).Values)
    {
      if ready && !inProgress {
        if last == GogoList {
          OnList(output, parse, now);
        } else if last == GogoGetSystemInfo {
          SetLast(GogoList, [SystemInfo]);
        } else if last == GogoStartBundle {
          SetLast(GogoStopBundle, [Start(bundlesToStart)]);
        } else if last == GogoStopBundle {
          SetLast(GogoGetSystemInfo, [Stop(bundlesToStop)]);
        } else {
          SetLast(GogoList, []);
        }
      }
    }

    /** Sets the last command, after the given ones have been fired. */
    method SetLast(command: Command, ghost commands: seq<Fired>)
      requires Valid()
      modifies this`last, this`state
      ensures Valid() && state == old(state).(last := command, fired := old(state).fired + commands)
    {
      last := command;
      state := state.(last := command, fired := state.fired + commands);
    }

    method OnList(output: string, parse: string -> Option<Fields>, now: int)
      requires Valid()
      modifies this, bundlesWithNameAndId.Values
      ensures Valid() && state == AfterList(old(state), Listed(BundleLines(output), parse), now)
      ensures fresh(bundlesWithNameAndId.Values - old(bundlesWithNameAndId).Values)
    {
      var bundles := MapBundleNamesToBundles(output, parse);
      OnListing(bundles, Show(bundles), now);
    }

    method OnListing(bundles: map<string, Bundle>, ghost listing: map<string, Info>, now: int)
      requires Valid() && Injective(bundles) && Show(bundles) == listing
      modifies this, bundlesWithNameAndId.Values, bundles.Values
      ensures Valid() && state == AfterList(old(state), listing, now)
      ensures bundlesWithNameAndId == bundles || bundlesWithNameAndId == old(bundlesWithNameAndId)
    {
      ShowSize(bundles);
      TakeOver(bundles, listing);
      EmitStarts(|bundles|, now);
    }

    /** The snapshot is set when there is none, and replaced when its size differs. */
    method TakeOver(bundles: map<string, Bundle>, ghost listing: map<string, Info>)
      requires Valid() && Injective(bundles) && Show(bundles) == listing
      modifies this`bundlesWithNameAndId, this`state
      ensures Valid()
      ensures bundlesWithNameAndId
           == if |old(state).snapshot| != |bundles| then bundles else old(bundlesWithNameAndId)
      ensures state == AfterTakeOver(old(state), listing)
    {
      ShowSize(bundles);
      ShowSize(bundlesWithNameAndId);
      if |bundlesWithNameAndId| != |bundles| {
        state := state.(snapshot := listing, emitted := []);
      }
      if bundlesWithNameAndId == map[] {
        bundlesWithNameAndId := bundles;
      } else if |bundlesWithNameAndId| != |bundles| {
        bundlesWithNameAndId := bundles;
      }
    }

    /** The start string is computed from the snapshot, whatever the listing said. */
    method EmitStarts(ghost size: nat, now: int)
      requires Valid()
      modifies this`bundlesToStart, this`last, this`state, bundlesWithNameAndId.Values
      ensures Valid() && bundlesWithNameAndId == old(bundlesWithNameAndId)
      ensures state == AfterEmission(old(state), size, now)
    {
      ComputeStarts(now);
      SetLast(GogoStartBundle, [List(size, bundlesToStart)]);
    }

    method ComputeStarts(now: int)
      requires Valid()
      modifies this`bundlesToStart, this`state, bundlesWithNameAndId.Values
      ensures var s := old(state);
              var names := Emitted(s.snapshot, s.system + s.process);
              state == s.(snapshot := Restarted(s.snapshot, names, now), toStart := IdText(s.snapshot, names),
                          emitted := s.emitted + names)
      ensures Valid()
    {
      ghost var names := Emitted(state.snapshot, state.system + state.process);
      ghost var after;
      bundlesToStart, after := BuildFromListing(bundlesWithNameAndId, processBundles, systemBundles, now);
      state := state.(snapshot := after, toStart := bundlesToStart, emitted := state.emitted + names);
    }
  }

  lemma ShowSize(bundles: map<string, Bundle>)
    ensures |Show(bundles)| == |bundles|
  {
    assert Show(bundles).Keys == bundles.Keys;
  }

  lemma {:induction false} ListingIsNew(lines: seq<string>, parse: string -> Option<Fields>)
    ensures NewListing(Listed(lines, parse))
  {
    if lines != [] {
      ListingIsNew(lines[..|lines| - 1], parse);
    }
  }

  // ---- What holds over every run

  /** The command that comes after `n` fired ones. */
  function CycleCommand(n: nat): Command {
    if n % 4 == 0 then GogoList
    else if n % 4 == 1 then GogoStartBundle
    else if n % 4 == 2 then GogoStopBundle
    else GogoGetSystemInfo
  }

  function CommandOf(f: Fired): Command {
    match f
    case List(_, _) => GogoList
    case Start(_) => GogoStartBundle
    case Stop(_) => GogoStopBundle
    case SystemInfo => GogoGetSystemInfo
  }

  /** The fired commands go round the cycle; every start uses the ids of the list just before it;
      nothing is ever stopped. */
  predicate CycleOk(fired: seq<Fired>) {
    && (forall k | 0 <= k < |fired| :: CommandOf(fired[k]) == CycleCommand(k))
    && (forall k | 0 <= k < |fired| && fired[k].Start? ::
          k > 0 && fired[k - 1].List? && fired[k].ids == fired[k - 1].ids)
    && (forall k | 0 <= k < |fired| && fired[k].Stop? :: fired[k].ids == "")
  }

  /** The index of the latest list command. */
  function LatestList(fired: seq<Fired>): nat {
    if fired == [] then 0 else (|fired| - 1) / 4 * 4
  }

  /** Each restart counter counts the emissions of its bundle since the snapshot was taken over. */
  predicate CountersOk(snapshot: map<string, Info>, emitted: seq<string>) {
    && (forall i | 0 <= i < |emitted| :: emitted[i] in snapshot)
    && (forall n | n in snapshot :: snapshot[n].restarts == multiset(emitted)[n] == |snapshot[n].attempts|)
  }

  predicate MonitorOk(s: MonitorState) {
    && CycleOk(s.fired)
    && s.toStop == ""
    && (if s.last == NoCommand then s.fired == [] else s.last == CycleCommand(|s.fired|))
    && (s.last == GogoStartBundle ==>
          s.fired != [] && s.fired[|s.fired| - 1].List? && s.fired[|s.fired| - 1].ids == s.toStart)
    && CountersOk(s.snapshot, s.emitted)
    && (s.fired != [] ==> LatestList(s.fired) < |s.fired| && s.fired[LatestList(s.fired)].List?
                          && |s.snapshot| == s.fired[LatestList(s.fired)].size)
  }

  lemma CycleExtends(fired: seq<Fired>, f: Fired)
    requires CycleOk(fired) && CommandOf(f) == CycleCommand(|fired|)
    requires f.Start? ==> fired != [] && fired[|fired| - 1].List? && f.ids == fired[|fired| - 1].ids
    requires f.Stop? ==> f.ids == ""
    ensures CycleOk(fired + [f])
    ensures LatestList(fired + [f]) == if f.List? then |fired| else LatestList(fired)
  {
  }

  lemma CountersAfterRestart(base: map<string, Info>, before: seq<string>, names: seq<string>, now: int)
    requires CountersOk(base, before) && forall i | 0 <= i < |names| :: names[i] in base
    ensures CountersOk(Restarted(base, names, now), before + names)
  {
    var after := Restarted(base, names, now);
    forall n | n in after
      ensures after[n].restarts == multiset(before + names)[n] == |after[n].attempts|
    {
      RestartedAt(base, names, now, n);
    }
  }

  lemma SameSizeAfterRestart(base: map<string, Info>, names: seq<string>, now: int)
    requires forall i | 0 <= i < |names| :: names[i] in base
    ensures |Restarted(base, names, now)| == |base|
  {
    assert |Restarted(base, names, now).Keys| == |base.Keys|;
  }

  lemma NewCounters(listing: map<string, Info>)
    requires NewListing(listing)
    ensures CountersOk(listing, [])
  {
  }

  lemma EmissionKeepsOk(s: MonitorState, now: int)
    requires CycleOk(s.fired) && CycleCommand(|s.fired|) == GogoList && s.toStop == ""
    requires CountersOk(s.snapshot, s.emitted)
    ensures MonitorOk(AfterEmission(s, |s.snapshot|, now))
  {
    var names := Emitted(s.snapshot, s.system + s.process);
    CountersAfterRestart(s.snapshot, s.emitted, names, now);
    SameSizeAfterRestart(s.snapshot, names, now);
    CycleExtends(s.fired, List(|s.snapshot|, IdText(s.snapshot, names)));
  }

  lemma ListKeepsOk(s: MonitorState, listing: map<string, Info>, now: int)
    requires MonitorOk(s) && NewListing(listing) && s.last == GogoList
    ensures MonitorOk(AfterList(s, listing, now))
  {
    NewCounters(listing);
    EmissionKeepsOk(AfterTakeOver(s, listing), now);
  }

  lemma FireKeepsOk(s: MonitorState, f: Fired, next: Command)
    requires MonitorOk(s) && s.last == CommandOf(f) && s.last != GogoList && next == CycleCommand(|s.fired| + 1)
    requires f.Start? ==> f.ids == s.toStart
    requires f.Stop? ==> f.ids == s.toStop
    ensures MonitorOk(s.(fired := s.fired + [f], last := next))
  {
    CycleExtends(s.fired, f);
  }

  lemma TickKeepsOk(s: MonitorState, listing: map<string, Info>, now: int)
    requires MonitorOk(s) && NewListing(listing)
    ensures MonitorOk(AfterTick(s, listing, now))
  {
    if s.ready && !s.inProgress {
      match s.last
      case GogoList => ListKeepsOk(s, listing, now);
      case GogoGetSystemInfo => FireKeepsOk(s, SystemInfo, GogoList);
      case GogoStartBundle => FireKeepsOk(s, Start(s.toStart), GogoStopBundle);
      case GogoStopBundle => FireKeepsOk(s, Stop(s.toStop), GogoGetSystemInfo);
      case NoCommand =>
    }
  }

  lemma EventKeepsOk(s: MonitorState, e: MonitorEvent)
    requires MonitorOk(s) && (e.Tick? ==> NewListing(e.listing))
    ensures MonitorOk(AfterEvent(s, e))
  {
    if e.Tick? {
      TickKeepsOk(s, e.listing, e.now);
    }
  }

  /** In every run of the monitor: the fired commands are a prefix of list, start, stop, info
      repeated; every start uses the ids computed by the list just before it; the snapshot has
      the size of the latest listing; and each restart counter counts the emissions of its bundle
      since the snapshot was taken over. */
  lemma {:induction false} RunKeepsOk(s: MonitorState, events: seq<MonitorEvent>)
    requires MonitorOk(s) && NewListings(events)
    ensures MonitorOk(AfterEvents(s, events))
    decreases |events|
  {
    if events != [] {
      EventKeepsOk(s, events[0]);
      RunKeepsOk(AfterEvent(s, events[0]), events[1..]);
    }
  }

  lemma EveryRunIsOk(system: seq<string>, process: seq<string>, events: seq<MonitorEvent>)
    requires NewListings(events)
    ensures MonitorOk(AfterEvents(InitMonitor(system, process), events))
  {
    RunKeepsOk(InitMonitor(system, process), events);
  }

  /** A tick that finds the container ready and no command running. */
  predicate Gated(s: MonitorState, e: MonitorEvent) {
    e.Tick? && s.ready && !s.inProgress
  }

  function GatedTicks(s: MonitorState, events: seq<MonitorEvent>): nat
    decreases |events|
  {
    if events == [] then 0
    else (if Gated(s, events[0]) then 1 else 0) + GatedTicks(AfterEvent(s, events[0]), events[1..])
  }

  lemma FiredOnEvent(s: MonitorState, e: MonitorEvent)
    ensures var t := AfterEvent(s, e);
            && s.fired <= t.fired
            && |t.fired| == |s.fired| + (if Gated(s, e) && s.last != NoCommand then 1 else 0)
            && (t.last == NoCommand <==> s.last == NoCommand && !Gated(s, e))
  {
  }

  /** Commands are only fired on gated ticks: one on each, but for the first one of all. */
  lemma {:induction false} FiredOnGatedTicks(s: MonitorState, events: seq<MonitorEvent>)
    ensures s.fired <= AfterEvents(s, events).fired
    ensures |AfterEvents(s, events).fired| <= |s.fired| + GatedTicks(s, events)
    ensures s.last != NoCommand ==> |AfterEvents(s, events).fired| == |s.fired| + GatedTicks(s, events)
    ensures s.last == NoCommand && GatedTicks(s, events) > 0
            ==> |AfterEvents(s, events).fired| + 1 == |s.fired| + GatedTicks(s, events)
    decreases |events|
  {
    if events != [] {
      var t := AfterEvent(s, events[0]);
      FiredOnEvent(s, events[0]);
      FiredOnGatedTicks(t, events[1..]);
      assert AfterEvents(s, events) == AfterEvents(t, events[1..]);
    }
  }

  // ---- The two flags

  /** After any run the monitor is as ready as the last event about it said; `j` is the place of that
      event, or -1 if there was none. */
  lemma {:induction false} ReadyIsLastSet(s: MonitorState, events: seq<MonitorEvent>, j: int)
    requires -1 <= j < |events| && (j >= 0 ==> events[j].SetReady?)
    requires forall k | j < k < |events| :: !events[k].SetReady?
    ensures AfterEvents(s, events).ready == if j == -1 then s.ready else events[j].ready
    decreases |events|
  {
    if events != [] {
      ReadyIsLastSet(AfterEvent(s, events[0]), events[1..], if j <= 0 then -1 else j - 1);
    }
  }

  /** The same for the flag of a running command. */
  lemma {:induction false} InProgressIsLastSet(s: MonitorState, events: seq<MonitorEvent>, j: int)
    requires -1 <= j < |events| && (j >= 0 ==> events[j].SetInProgress?)
    requires forall k | j < k < |events| :: !events[k].SetInProgress?
    ensures AfterEvents(s, events).inProgress == if j == -1 then s.inProgress else events[j].inProgress
    decreases |events|
  {
    if events != [] {
      InProgressIsLastSet(AfterEvent(s, events[0]), events[1..], if j <= 0 then -1 else j - 1);
    }
  }

  /** As long as the container is not ready, or a command is running, nothing is fired, listed or
      restarted, however many ticks go by. */
  lemma {:induction false} ShutGateHoldsAll(s: MonitorState, events: seq<MonitorEvent>)
    requires (!s.ready && SetReady(true) !in events) || (s.inProgress && SetInProgress(false) !in events)
    ensures var t := AfterEvents(s, events);
            t == s.(ready := t.ready, inProgress := t.inProgress)
    decreases |events|
  {
    if events != [] {
      ShutGateHoldsAll(AfterEvent(s, events[0]), events[1..]);
    }
  }

  /** While it is ready and no command is running, every tick fires one command. */
  lemma {:induction false} OpenGateFiresAll(s: MonitorState, events: seq<MonitorEvent>)
    requires s.ready && !s.inProgress && s.last != NoCommand
    requires forall k | 0 <= k < |events| :: events[k].Tick?
    ensures |AfterEvents(s, events).fired| == |s.fired| + |events|
    decreases |events|
  {
    if events != [] {
      OpenGateFiresAll(AfterEvent(s, events[0]), events[1..]);
    }
  }

  ghost function TotalRestarts(m: map<string, Info>): nat {
    RestartSum(m, m.Keys)
  }

  /** A list command that keeps its snapshot raises the restart counters by the number of ids it
      emits, all told. */
  lemma ListConservesRestarts(s: MonitorState, listing: map<string, Info>, now: int)
    ensures var t := AfterList(s, listing, now);
            var base := AfterTakeOver(s, listing).snapshot;
            TotalRestarts(t.snapshot) == TotalRestarts(base) + |Emitted(base, s.system + s.process)|
  {
    var base := AfterTakeOver(s, listing).snapshot;
    RestartsAreConserved(base, Emitted(base, s.system + s.process), now);
  }
}
