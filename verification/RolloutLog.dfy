/** What a rollout log says about the devices of an update: the last known state of each device, and the summary and the
    queries that are each computed from the log anew. */
module RolloutLog {
  import opened TextLines
  import opened StateTally
  import Targets = UpdateTargets

  const MISSING := "Missing"
  const ROLLED_BACK := "Rolled back"
  const INSTALL_FAILED := "Installation completed; failed"
  const INSTALL_SUCCEEDED := "Installation completed; succeeded"

  /** One decoded log line. */
  datatype Event = Event(uuid: string, target: string, status: string)

  /** The lines of a log; a line that is not valid JSON decodes to nothing. */
  datatype Log = NoLog | Unreadable | Lines(events: seq<Option<Event>>)

  datatype Result<T> = Absent | Failed | Known(value: T)

  // ---- Statuses ----

  /** The event types with a status text of their own, and all others. */
  datatype Kind =
    | MetadataUpdateCompleted | EcuDownloadStarted | EcuDownloadCompleted | EcuInstallationStarted
    | EcuInstallationApplied | EcuInstallationCompleted | CertRotationStarted | CertRotationCompleted
    | Other(id: string)

  datatype Report = Report(kind: Kind, success: Option<bool>)

  function BaseStatus(kind: Kind): string
  {
    match kind
    case MetadataUpdateCompleted => "Metadata update completed"
    case EcuDownloadStarted => "Download started"
    case EcuDownloadCompleted => "Download completed"
    case EcuInstallationStarted => "Installation started"
    case EcuInstallationApplied => "Installation applied"
    case EcuInstallationCompleted => "Installation completed"
    case CertRotationStarted => "Certificate rotation started"
    case CertRotationCompleted => "Certificate rotation completed"
    case Other(id) => "Unknown event type: " + id
  }

  function ParseStatus(r: Report): string
  {
    match r.kind
    case EcuInstallationApplied => BaseStatus(r.kind) + "; awaiting update finalization"
    case EcuDownloadCompleted | EcuInstallationCompleted | CertRotationCompleted | MetadataUpdateCompleted =>
      BaseStatus(r.kind)
      + if r.success.None? then "; unknown result" else if r.success.value then "; succeeded" else "; failed"
    case _ => BaseStatus(r.kind)
  }

  lemma BaseShape(kind: Kind)
    ensures var base := BaseStatus(kind);
            && |base| >= 14 && base[0] != 'R' && base[1] != 'i'
            && (!kind.EcuInstallationCompleted? ==> base[0] != 'I' || base[13] != 'c')
  {
  }

  lemma ParseKeepsBase(r: Report)
    ensures BaseStatus(r.kind) <= ParseStatus(r)
  {
  }

  lemma FinishedStatuses()
    ensures ParseStatus(Report(EcuInstallationCompleted, Some(false))) == INSTALL_FAILED
    ensures ParseStatus(Report(EcuInstallationCompleted, Some(true))) == INSTALL_SUCCEEDED
    ensures INSTALL_FAILED[24] == 'f' && INSTALL_SUCCEEDED[24] == 's'
    ensures ParseStatus(Report(EcuInstallationCompleted, None))[24] == 'u'
  {
  }

  /** A device can report no status that the server reserves for itself, and the two statuses the fold looks for
      stand for a finished installation and nothing else. */
  lemma StatusesAreDistinct(r: Report)
    ensures ParseStatus(r) != MISSING && ParseStatus(r) != ROLLED_BACK
    ensures ParseStatus(r) == INSTALL_FAILED <==> r == Report(EcuInstallationCompleted, Some(false))
    ensures ParseStatus(r) == INSTALL_SUCCEEDED <==> r == Report(EcuInstallationCompleted, Some(true))
    ensures MISSING == "Missing" && ROLLED_BACK == "Rolled back"
    ensures INSTALL_FAILED == "Installation completed; failed"
    ensures INSTALL_SUCCEEDED == "Installation completed; succeeded"
  {
    hide BaseStatus, ParseStatus;
    BaseShape(r.kind);
    ParseKeepsBase(r);
    FinishedStatuses();
    if r.kind.EcuInstallationCompleted? && r.success.Some? {
      if r.success.value { assert r == Report(EcuInstallationCompleted, Some(true)); }
      else { assert r == Report(EcuInstallationCompleted, Some(false)); }
    }
    var s, base := ParseStatus(r), BaseStatus(r.kind);
    assert s[0] == base[0] && s[1] == base[1] && s[13] == base[13];
  }

  // ---- The last known state of a device ----

  /** Whether an event is about this update; without targets, or for an event without a target, every event is. */
  predicate Own(targets: Option<set<string>>, e: Event)
  {
    targets.None? || e.target == "" || e.target in targets.value
  }

  predicate OwnAt(events: seq<Option<Event>>, targets: Option<set<string>>, u: string, i: int)
  {
    0 <= i < |events| && events[i].Some? && events[i].value.uuid == u && Own(targets, events[i].value)
  }

  /** Another target was installed successfully at `i`. */
  predicate OtherInstalledAt(events: seq<Option<Event>>, targets: Option<set<string>>, u: string, i: int)
  {
    && 0 <= i < |events| && events[i].Some? && events[i].value.uuid == u
    && !Own(targets, events[i].value) && events[i].value.status == INSTALL_SUCCEEDED
  }

  /** The device's last event about this update. */
  function LastOwn(events: seq<Option<Event>>, targets: Option<set<string>>, u: string): (j: int)
    ensures -1 <= j < |events|
    ensures j >= 0 ==> OwnAt(events, targets, u, j)
    ensures forall i | j < i < |events| :: !OwnAt(events, targets, u, i)
  {
    var n := |events| - 1;
    if n < 0 || OwnAt(events, targets, u, n) then n
    else
      var j := LastOwn(events[..n], targets, u);
      assert j >= 0 ==> events[..n][j] == events[j];
      assert forall i | j < i < n :: !OwnAt(events[..n], targets, u, i) && events[..n][i] == events[i];
      j
  }

  predicate OtherInstalledAfter(events: seq<Option<Event>>, targets: Option<set<string>>, u: string, j: int)
  {
    exists k :: j < k < |events| && OtherInstalledAt(events, targets, u, k)
  }

  /** What the log says about a device: nothing when it never reported on this update; else the status of its last such
      event, or a roll back when that is a failed installation and another target succeeded later. */
  function State(events: seq<Option<Event>>, targets: Option<set<string>>, u: string): Option<string>
  {
    var j := LastOwn(events, targets, u);
    if j < 0 then None
    else if events[j].value.status == INSTALL_FAILED && OtherInstalledAfter(events, targets, u, j) then
      Some(ROLLED_BACK)
    else Some(events[j].value.status)
  }

  /** Line `j` is the device's last one about this update, all of its later lines being about other targets; and `s` is
      that line's status, or tells that the device rolled back. */
  predicate Tells(events: seq<Option<Event>>, targets: Option<set<string>>, u: string, j: int, s: string)
  {
    && 0 <= j < |events| && events[j].Some?
    && var e := events[j].value;
    && e.uuid == u && (targets.None? || e.target == "" || e.target in targets.value)
    && (forall i | j < i < |events| && events[i].Some? && events[i].value.uuid == u ::
          targets.Some? && events[i].value.target != "" && events[i].value.target !in targets.value)
    && s == if e.status == "Installation completed; failed"
               && exists k :: j < k < |events| && events[k].Some? && events[k].value.uuid == u
                              && events[k].value.status == "Installation completed; succeeded"
            then "Rolled back" else e.status
  }

  /** The state of a device is what one of its lines tells, and there is none if no line of it is about the update. */
  lemma StateMeans(events: seq<Option<Event>>, targets: Option<set<string>>, u: string, s: string)
    ensures State(events, targets, u) == Some(s) <==> exists j :: Tells(events, targets, u, j, s)
  {
    hide LastOwn;
    var last := LastOwn(events, targets, u);
    forall i | 0 <= i < |events| ensures OwnAt(events, targets, u, i) <==>
        events[i].Some? && events[i].value.uuid == u
        && (targets.None? || events[i].value.target == "" || events[i].value.target in targets.value) {}
    if last >= 0 {
      assert OtherInstalledAfter(events, targets, u, last)
        <==> exists k :: last < k < |events| && events[k].Some? && events[k].value.uuid == u
                         && events[k].value.status == INSTALL_SUCCEEDED by {
        forall k | last < k < |events| ensures OtherInstalledAt(events, targets, u, k)
          <==> events[k].Some? && events[k].value.uuid == u && events[k].value.status == INSTALL_SUCCEEDED {
          assert !OwnAt(events, targets, u, k);
        }
      }
      assert State(events, targets, u) == Some(s) ==> Tells(events, targets, u, last, s);
    }
    if j :| Tells(events, targets, u, j, s) {
      assert OwnAt(events, targets, u, j);
      assert j == last;
    }
  }

  predicate LastFailed(events: seq<Option<Event>>, targets: Option<set<string>>, u: string)
  {
    var j := LastOwn(events, targets, u);
    j >= 0 && events[j].value.status == INSTALL_FAILED
  }

  lemma LastOwnOfPrefix(events: seq<Option<Event>>, targets: Option<set<string>>, u: string, n: nat)
    requires |events| == n + 1
    ensures LastOwn(events, targets, u)
         == if OwnAt(events, targets, u, n) then n else LastOwn(events[..n], targets, u)
  {
  }

  /** The device's state after line `n`, the last one, in terms of what the lines before it say. */
  function NextState(events: seq<Option<Event>>, targets: Option<set<string>>, u: string, n: nat): Option<string>
    requires |events| == n + 1
  {
    if OwnAt(events, targets, u, n) then Some(events[n].value.status)
    else if OtherInstalledAt(events, targets, u, n) && LastFailed(events[..n], targets, u) then Some(ROLLED_BACK)
    else State(events[..n], targets, u)
  }

  predicate NextFailed(events: seq<Option<Event>>, targets: Option<set<string>>, u: string, n: nat)
    requires |events| == n + 1
  {
    if OwnAt(events, targets, u, n) then events[n].value.status == INSTALL_FAILED
    else LastFailed(events[..n], targets, u)
  }

  lemma OneMoreLine(events: seq<Option<Event>>, targets: Option<set<string>>, u: string, n: nat)
    requires |events| == n + 1
    ensures State(events, targets, u) == NextState(events, targets, u, n)
    ensures LastFailed(events, targets, u) == NextFailed(events, targets, u, n)
  {
    hide LastOwn;
    var before := events[..n];
    LastOwnOfPrefix(events, targets, u, n);
    var j := LastOwn(events, targets, u);
    if !OwnAt(events, targets, u, n) && j >= 0 {
      assert OtherInstalledAfter(events, targets, u, j)
        <==> OtherInstalledAfter(before, targets, u, j) || OtherInstalledAt(events, targets, u, n) by {
        forall k | j < k < n
          ensures OtherInstalledAt(before, targets, u, k) == OtherInstalledAt(events, targets, u, k)
        {
          assert before[k] == events[k];
        }
      }
    }
  }

  function Only(events: seq<Option<Event>>, u: string): seq<Option<Event>>
  {
    if events == [] then []
    else
      var n := |events| - 1;
      Only(events[..n], u) + if events[n].Some? && events[n].value.uuid == u then [events[n]] else []
  }

  /** A device's state depends on that device's own lines alone. */
  lemma {:induction false} StateDependsOnOwnLines(events: seq<Option<Event>>, targets: Option<set<string>>, u: string)
    ensures State(events, targets, u) == State(Only(events, u), targets, u)
    ensures LastFailed(events, targets, u) == LastFailed(Only(events, u), targets, u)
  {
    hide State, LastFailed;
    if events != [] {
      var n := |events| - 1;
      StateDependsOnOwnLines(events[..n], targets, u);
      OneMoreLine(events, targets, u, n);
      var only, before := Only(events, u), Only(events[..n], u);
      if events[n].Some? && events[n].value.uuid == u {
        assert only == before + [events[n]];
        assert only[..|before|] == before;
        OneMoreLine(only, targets, u, |before|);
      } else {
        assert only == before;
      }
    }
  }

  // ---- Reading the log ----

  predicate Passes(filter: Option<set<string>>, u: string)
  {
    filter.None? || u in filter.value
  }

  function Lookup(m: map<string, string>, u: string): Option<string>
  {
    if u in m then Some(m[u]) else None
  }

  /** One pass over the log gives every device that passes the filter its state, and no other device one. */
  method LastKnownStates(log: Log, targets: Option<set<string>>, filter: Option<set<string>>)
    returns (r: Result<map<string, string>>)
    ensures log.NoLog? <==> r.Absent?
    ensures log.Unreadable? <==> r.Failed?
    ensures r.Known? ==> forall u ::
              Lookup(r.value, u) == if Passes(filter, u) then State(log.events, targets, u) else None
  {
    hide State, LastFailed, LastOwn;
    if log.NoLog? {
      return Absent;
    }
    if log.Unreadable? {
      return Failed;
    }
    var events := log.events;
    var lastStates: map<string, string>, failed: map<string, bool> := map[], map[];
    NothingKnown(targets);
    for i := 0 to |events|
      invariant forall u :: Lookup(lastStates, u) == if Passes(filter, u) then State(events[..i], targets, u) else None
      invariant forall u | Passes(filter, u) :: LastFailed(events[..i], targets, u) <==> u in failed && failed[u]
    {
      assert events[..i + 1][..i] == events[..i];
      ghost var read := events[..i + 1];
      forall u ensures State(read, targets, u) == NextState(read, targets, u, i)
                    && LastFailed(read, targets, u) == NextFailed(read, targets, u, i) {
        OneMoreLine(read, targets, u, i);
      }
      if events[i].None? {
        continue;
      }
      var status := events[i].value;
      if filter.Some? && status.uuid !in filter.value {
        continue;
      }
      if targets.Some? && |status.target| > 0 && status.target !in targets.value {
        if status.uuid in failed && failed[status.uuid] && status.status == INSTALL_SUCCEEDED {
          lastStates := lastStates[status.uuid := ROLLED_BACK];
        }
        continue;
      }
      lastStates := lastStates[status.uuid := status.status];
      failed := failed[status.uuid := status.status == INSTALL_FAILED];
    }
    assert events[..|events|] == events;
    r := Known(lastStates);
  }

  lemma NothingKnown(targets: Option<set<string>>)
    ensures forall u :: State([], targets, u) == None && !LastFailed([], targets, u)
  {
  }

  /** The log was written from device reports. */
  ghost predicate FromReports(events: seq<Option<Event>>)
  {
    forall e | e in events && e.Some? :: exists r :: e.value.status == ParseStatus(r)
  }

  lemma StateIsNotMissing(events: seq<Option<Event>>, targets: Option<set<string>>, u: string)
    requires FromReports(events)
    ensures State(events, targets, u) != Some(MISSING)
  {
    hide ParseStatus;
    var j := LastOwn(events, targets, u);
    if j >= 0 {
      assert events[j] in events;
      var r :| events[j].value.status == ParseStatus(r);
      StatusesAreDistinct(r);
    }
  }

  /** For a rollout whose log exists, the summary adds up to the effective devices, every line of it is the size of the
      query for that status, and each effective device is listed by the query for one status and no other. */
  lemma RolloutReportIsConsistent(events: seq<Option<Event>>, targets: Option<set<string>>, effect: set<string>,
                                  states: map<string, string>, report: map<string, nat>)
    requires FromReports(events)
    requires forall u :: Lookup(states, u) == if u in effect then State(events, targets, u) else None
    requires forall s :: Count(report, s) == |Counted(states, Some(effect), MISSING, s)|
    ensures Sum(report, report.Keys) == |effect|
    ensures forall s :: Count(report, s) == |Listed(states, Some(effect), MISSING, s)|
    ensures forall u, s :: u in Listed(states, Some(effect), MISSING, s)
                           <==> u in effect && s == if u in states then states[u] else "Missing"
  {
    StatesOfEffect(events, targets, effect, states);
    hide State, FromReports, Sum, Count, Counted, Listed, Lookup;
    SummaryAgrees(report, states, Some(effect), MISSING);
    QueriesOfEffect(states, effect);
  }

  lemma StatesOfEffect(events: seq<Option<Event>>, targets: Option<set<string>>, effect: set<string>,
                       states: map<string, string>)
    requires FromReports(events)
    requires forall u :: Lookup(states, u) == if u in effect then State(events, targets, u) else None
    ensures forall u | u in states :: u in effect && states[u] != MISSING
    ensures states.Keys + effect == effect
  {
    hide State, FromReports;
    forall u | u in states ensures u in effect && states[u] != MISSING {
      assert Lookup(states, u) == Some(states[u]);
      StateIsNotMissing(events, targets, u);
    }
  }

  lemma QueriesOfEffect(states: map<string, string>, effect: set<string>)
    requires forall v | v in states :: v in effect && states[v] != MISSING
    ensures forall u, s :: u in Listed(states, Some(effect), MISSING, s)
                           <==> u in effect && s == if u in states then states[u] else "Missing"
  {
    hide Listed;
    forall u, s ensures u in Listed(states, Some(effect), MISSING, s)
                        <==> u in effect && s == if u in states then states[u] else "Missing" {
      QueriesPartition(states, Some(effect), MISSING, u, s);
    }
  }

  lemma NobodyHasMissing(states: map<string, string>)
    requires forall u | u in states :: states[u] != MISSING
    ensures Having(states, MISSING) == {}
  {
  }

  // ---- Two reports, computed apart ----

  /** The state of each effective device the log knows, when these targets are the update's. */
  function StatesOf(events: seq<Option<Event>>, targets: Option<set<string>>, effect: set<string>): map<string, string>
  {
    map u | u in effect && State(events, targets, u).Some? :: State(events, targets, u).value
  }

  lemma KnownIsStatesOf(events: seq<Option<Event>>, targets: Option<set<string>>, effect: set<string>,
                        known: map<string, string>)
    requires forall u :: Lookup(known, u) == if u in effect then State(events, targets, u) else None
    ensures known == StatesOf(events, targets, effect)
  {
    hide State;
    forall u | u in known
      ensures u in StatesOf(events, targets, effect) && known[u] == StatesOf(events, targets, effect)[u]
    {
      assert Lookup(known, u) == Some(known[u]);
    }
    forall u | u in StatesOf(events, targets, effect) ensures u in known {
      assert Lookup(known, u).Some?;
    }
  }

  /** A rollout's summary and a query for it. Each works out the update's targets, visiting them in an order of its own,
      and then reads the log; both stand on their own whatever the orders are. */
  method RolloutReport(log: Log, order1: seq<Targets.Target>, order2: seq<Targets.Target>, tag: string,
                       effect: set<string>,
                       status: string)
    returns (summary: Result<map<string, nat>>, listed: Result<seq<string>>)
    requires multiset(order1) == multiset(order2)
    requires log.Lines? ==> FromReports(log.events)
    ensures (exists t :: t in order1 && Targets.Unjudged(t, tag)) ==> summary.Failed? && listed.Failed?
    ensures log.NoLog? && summary != Failed ==> summary == Known(map[]) && listed == Known([])
    ensures log.Unreadable? ==> summary == Failed && listed == Failed
    ensures summary.Known? <==> listed.Known?
    ensures log.Lines? && summary.Known? ==>
              && Sum(summary.value, summary.value.Keys) == |effect|
              && (forall s :: Count(summary.value, s)
                   == |Counted(StatesOf(log.events, Targets.Names(order1, tag), effect), Some(effect), MISSING, s)|)
              && Lists(listed.value,
                       Listed(StatesOf(log.events, Targets.Names(order2, tag), effect), Some(effect), MISSING, status))
  {
    hide FromReports, State, StatesOf, Sum, Count, Counted, Lists, Listed, Targets.Unjudged, Targets.Names;
    SameTargets(order1, order2);
    summary := Summary(log, order1, tag, effect);
    listed := Query(log, order2, tag, effect, status);
  }

  lemma SameTargets(a: seq<Targets.Target>, b: seq<Targets.Target>)
    requires multiset(a) == multiset(b)
    ensures forall t :: t in a <==> t in b
  {
    forall t ensures t in a <==> t in b {
      assert t in multiset(a) <==> t in multiset(b);
    }
  }

  method Summary(log: Log, order: seq<Targets.Target>, tag: string, effect: set<string>)
    returns (r: Result<map<string, nat>>)
    requires log.Lines? ==> FromReports(log.events)
    ensures r.Failed? <==> log.Unreadable? || exists t :: t in order && Targets.Unjudged(t, tag)
    ensures !r.Absent? && (log.NoLog? && r.Known? ==> r.value == map[])
    ensures log.Lines? && r.Known? ==>
              && Sum(r.value, r.value.Keys) == |effect|
              && forall s :: Count(r.value, s)
                   == |Counted(StatesOf(log.events, Targets.Names(order, tag), effect), Some(effect), MISSING, s)|
  {
    hide FromReports, State, StatesOf, Sum, Count, Counted, Targets.Unjudged, Targets.Names;
    var selection := Targets.LatestUpdateTargets(order, tag);
    if selection.Failed? {
      return Failed;
    }
    var states := LastKnownStates(log, selection.names, Some(effect));
    match states
    case Absent => return Known(map[]);
    case Failed => return Failed;
    case Known(known) =>
      KnownIsStatesOf(log.events, selection.names, effect, known);
      var report := Summarize(known, Some(effect), MISSING);
      RolloutReportIsConsistent(log.events, selection.names, effect, known, report);
      return Known(report);
  }

  method Query(log: Log, order: seq<Targets.Target>, tag: string, effect: set<string>, status: string)
    returns (r: Result<seq<string>>)
    ensures r.Failed? <==> log.Unreadable? || exists t :: t in order && Targets.Unjudged(t, tag)
    ensures !r.Absent? && (log.NoLog? && r.Known? ==> r.value == [])
    ensures log.Lines? && r.Known? ==>
              Lists(r.value, Listed(StatesOf(log.events, Targets.Names(order, tag), effect), Some(effect), MISSING,
                                    status))
  {
    hide State, StatesOf, Lists, Listed, Targets.Unjudged, Targets.Names;
    var selection := Targets.LatestUpdateTargets(order, tag);
    if selection.Failed? {
      return Failed;
    }
    var states := LastKnownStates(log, selection.names, Some(effect));
    match states
    case Absent => return Known([]);
    case Failed => return Failed;
    case Known(known) =>
      KnownIsStatesOf(log.events, selection.names, effect, known);
      var uuids := StateFor(known, Some(effect), MISSING, status);
      return Known(uuids);
  }

  // ---- When two reports agree ----

  lemma {:induction false} SameLastOwn(events: seq<Option<Event>>, a: Option<set<string>>, b: Option<set<string>>,
                                       u: string)
    requires forall e :: Own(a, e) == Own(b, e)
    ensures LastOwn(events, a, u) == LastOwn(events, b, u)
    decreases |events|
  {
    hide Own;
    if events != [] {
      var n := |events| - 1;
      SameLastOwn(events[..n], a, b, u);
      LastOwnOfPrefix(events, a, u, n);
      LastOwnOfPrefix(events, b, u, n);
      hide LastOwn;
    }
  }

  lemma SameState(events: seq<Option<Event>>, a: Option<set<string>>, b: Option<set<string>>, u: string)
    requires Targets.Telling(a) == Targets.Telling(b) && a.Some? == b.Some?
    ensures State(events, a, u) == State(events, b, u)
  {
    forall e ensures Own(a, e) == Own(b, e) {
      if a.Some? && e.target != "" {
        assert e.target in Targets.Telling(a) <==> e.target in Targets.Telling(b);
      }
    }
    hide Own, LastOwn;
    SameLastOwn(events, a, b, u);
    forall k ensures OtherInstalledAt(events, a, u, k) == OtherInstalledAt(events, b, u, k) {}
  }

  /** A device that only reported on a target that one report takes for its own and the other does not. */
  lemma OnlyOneKnows(a: Option<set<string>>, b: Option<set<string>>, u: string, x: string, status: string)
    requires a.Some? && x in a.value && b.Some? && x !in b.value && x != ""
    ensures var events := [Some(Event(u, x, status))];
            State(events, a, u) == Some(status) && State(events, b, u) == None
  {
    var events := [Some(Event(u, x, status))];
    hide LastOwn;
    LastOwnOfPrefix(events, a, u, 0);
    LastOwnOfPrefix(events, b, u, 0);
    OwnOfNone(events[..0], b, u);
    if status == INSTALL_FAILED {
      assert !OtherInstalledAfter(events, a, u, 0);
    }
  }

  lemma OwnOfNone(events: seq<Option<Event>>, targets: Option<set<string>>, u: string)
    requires events == []
    ensures LastOwn(events, targets, u) == -1
  {
  }

  /** The device rolled back from `x` to `y` for the one who counts `x` as the update's target, and updated well for the
      one who counts `y`. */
  lemma TieTellsTwoStories(u: string, x: string, y: string)
    requires x != y && x != "" && y != ""
    ensures var events := [Some(Event(u, x, INSTALL_FAILED)), Some(Event(u, y, INSTALL_SUCCEEDED))];
            State(events, Some({x}), u) == Some(ROLLED_BACK) && State(events, Some({y}), u) == Some(INSTALL_SUCCEEDED)
  {
    var events := [Some(Event(u, x, INSTALL_FAILED)), Some(Event(u, y, INSTALL_SUCCEEDED))];
    FinishedStatuses();
    assert INSTALL_SUCCEEDED != INSTALL_FAILED;
    hide LastOwn;
    assert events[..1][..0] == [];
    LastOwnOfPrefix(events, Some({x}), u, 1);
    LastOwnOfPrefix(events[..1], Some({x}), u, 0);
    LastOwnOfPrefix(events, Some({y}), u, 1);
    assert OtherInstalledAt(events, Some({x}), u, 1);
  }

  /** Two targets of the update with one version for one hardware id: each is the choice of one visiting order. */
  lemma TieExample(tag: string, hwId: string, version: int, x: string, y: string)
    requires x != y
    ensures var a := Targets.Target(x, Targets.Custom(Some(version), {tag}, [hwId]));
            var b := Targets.Target(y, Targets.Custom(Some(version), {tag}, [hwId]));
            Targets.Names([a, b], tag) == Some({x}) && Targets.Names([b, a], tag) == Some({y})
  {
    var a := Targets.Target(x, Targets.Custom(Some(version), {tag}, [hwId]));
    var b := Targets.Target(y, Targets.Custom(Some(version), {tag}, [hwId]));
    TieOrder(tag, hwId, a, b);
    TieOrder(tag, hwId, b, a);
  }

  lemma TieOrder(tag: string, hwId: string, a: Targets.Target, b: Targets.Target)
    requires a.custom == b.custom && a.custom.Custom? && a.custom.version.Some? && tag in a.custom.tags
    requires a.custom.hardwareIds == [hwId]
    ensures Targets.Names([a, b], tag) == Some({a.name})
  {
    hide Targets.Choose;
    assert Targets.For(a, tag, hwId) && Targets.For(b, tag, hwId);
    Targets.ChoiceIsUnique([a, b], tag, hwId, 0);
    assert Targets.Named([a, b], tag, 0) && !Targets.Named([a, b], tag, 1);
    var names := set i | 0 <= i < 2 && Targets.Named([a, b], tag, i) :: [a, b][i].name;
    assert [a, b][0].name in names;
    assert names == {a.name};
  }

  /** Summary and query agree whatever the log, the effect, the status and the two visiting orders. */
  ghost predicate AlwaysAgree(targets: seq<Targets.Target>, tag: string)
  {
    forall order1: seq<Targets.Target>, order2: seq<Targets.Target>, events: seq<Option<Event>>, effect: set<string>,
        status: string
      | multiset(order1) == multiset(targets) && multiset(order2) == multiset(targets) && FromReports(events) ::
      Agree(events, Targets.Names(order1, tag), Targets.Names(order2, tag), effect, status)
  }

  predicate Agree(events: seq<Option<Event>>, names1: Option<set<string>>, names2: Option<set<string>>,
                  effect: set<string>, status: string)
  {
    |Counted(StatesOf(events, names1, effect), Some(effect), MISSING, status)|
      == |Listed(StatesOf(events, names2, effect), Some(effect), MISSING, status)|
  }

  lemma SameTargetsAgree(events: seq<Option<Event>>, names1: Option<set<string>>, names2: Option<set<string>>,
                         effect: set<string>, status: string)
    requires FromReports(events)
    requires Targets.Telling(names1) == Targets.Telling(names2) && names1.Some? == names2.Some?
    ensures Agree(events, names1, names2, effect, status)
  {
    hide FromReports, State, Listed, Counted, Targets.Telling;
    forall u ensures State(events, names1, u) == State(events, names2, u) {
      SameState(events, names1, names2, u);
    }
    var states := StatesOf(events, names1, effect);
    assert states == StatesOf(events, names2, effect);
    forall u | u in states ensures states[u] != MISSING {
      StateIsNotMissing(events, names1, u);
    }
    NobodyHasMissing(states);
    NothingIsReplaced(states, Some(effect), MISSING, status);
  }

  lemma OtherTargetsDisagree(names1: Option<set<string>>, names2: Option<set<string>>, u: string, x: string)
    requires names1.Some? && x in names1.value && names2.Some? && x !in names2.value && x != ""
    ensures exists events, status :: FromReports(events) && !Agree(events, names1, names2, {u}, status)
  {
    var status := ParseStatus(Report(EcuDownloadStarted, None));
    var events := [Some(Event(u, x, status))];
    StatusesAreDistinct(Report(EcuDownloadStarted, None));
    OnlyOneKnows(names1, names2, u, x, status);
    assert FromReports(events);
    hide State, ParseStatus, FromReports;
    var states1, states2 := StatesOf(events, names1, {u}), StatesOf(events, names2, {u});
    assert states1 == map[u := status] && states2 == map[];
    assert Counted(states1, Some({u}), MISSING, status) == {u};
    assert Listed(states2, Some({u}), MISSING, status) == {};
    assert !Agree(events, names1, names2, {u}, status);
  }

  /** Two reports on one update always agree exactly when every target that ties for the highest version of some
      hardware id is the only highest one of another. */
  lemma ReportsAgreeIffSettled(targets: seq<Targets.Target>, tag: string)
    requires Targets.DistinctNames(targets)
    ensures AlwaysAgree(targets, tag) <==> Targets.Settled(targets, tag)
  {
    hide FromReports, Agree, Targets.Names, Targets.Telling, Targets.Latest, Targets.Sole;
    if Targets.Settled(targets, tag) {
      hide Targets.Settled;
      forall order1: seq<Targets.Target>, order2: seq<Targets.Target>, events: seq<Option<Event>>, effect: set<string>,
          status: string
        | multiset(order1) == multiset(targets) && multiset(order2) == multiset(targets) && FromReports(events)
        ensures Agree(events, Targets.Names(order1, tag), Targets.Names(order2, tag), effect, status)
      {
        Targets.SettledEither(targets, order1, tag);
        Targets.SettledNames(order1, order2, tag);
        SameTargetsAgree(events, Targets.Names(order1, tag), Targets.Names(order2, tag), effect, status);
      }
    } else {
      var h, t :| Targets.Latest(targets, tag, h, t) && t.name != "" && !Targets.Sole(targets, tag, t);
      var first, last := Targets.UnsettledNames(targets, tag, h, t);
      OtherTargetsDisagree(Targets.Names(first, tag), Targets.Names(last, tag), "", t.name);
      var events, status :|
        FromReports(events) && !Agree(events, Targets.Names(first, tag), Targets.Names(last, tag), {""}, status);
    }
  }
}
