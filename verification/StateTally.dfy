/** The summary that counts device states and the queries that list the devices in one state. Devices and states are
    arbitrary types; `missing` is the state reserved for expected devices that the log says nothing about. */
module StateTally {
  import opened TextLines

  function Having<U, S(==)>(states: map<U, S>, status: S): set<U>
  {
    set u | u in states && states[u] == status
  }

  /** The devices of the filter without a state; without a filter none are expected. */
  function Unseen<U, S>(states: map<U, S>, filter: Option<set<U>>): set<U>
  {
    if filter.Some? then filter.value - states.Keys else {}
  }

  function Everyone<U, S>(states: map<U, S>, filter: Option<set<U>>): set<U>
  {
    states.Keys + Unseen(states, filter)
  }

  /** What a query for one status answers. */
  function Listed<U, S(==)>(states: map<U, S>, filter: Option<set<U>>, missing: S, status: S): set<U>
  {
    if status == missing then Unseen(states, filter) else Having(states, status)
  }

  /** The devices the summary line of a status counts: the missing count replaces a count of that name. */
  function Counted<U, S(==)>(states: map<U, S>, filter: Option<set<U>>, missing: S, status: S): set<U>
  {
    if status == missing && Unseen(states, filter) != {} then Unseen(states, filter) else Having(states, status)
  }

  function Count<S>(report: map<S, nat>, status: S): nat
  {
    if status in report then report[status] else 0
  }

  // ---- The operations ----

  /** The devices of `seen` that are in the state. */
  function HavingAmong<U, S(==)>(states: map<U, S>, status: S, seen: set<U>): set<U>
  {
    set u | u in states && u in seen && states[u] == status
  }

  lemma OneMoreHaving<U, S>(states: map<U, S>, status: S, seen: set<U>, u: U)
    requires u in states && u !in seen
    ensures u !in HavingAmong(states, status, seen)
    ensures HavingAmong(states, status, seen + {u})
         == if states[u] == status then HavingAmong(states, status, seen) + {u} else HavingAmong(states, status, seen)
  {
  }

  lemma HavingEnds<U, S>(states: map<U, S>, status: S)
    ensures HavingAmong(states, status, {}) == {}
    ensures HavingAmong(states, status, states.Keys) == Having(states, status)
  {
  }

  /** The report counts the states of the devices of `seen`. */
  ghost predicate Tallies<U, S(!new)>(report: map<S, nat>, states: map<U, S>, seen: set<U>)
  {
    && (forall s :: Count(report, s) == |HavingAmong(states, s, seen)|)
    && (forall s | s in report :: report[s] > 0)
  }

  lemma NothingTallied<U, S(!new)>(states: map<U, S>)
    ensures Tallies(map[], states, {})
  {
  }

  lemma OneMoreTallied<U, S(!new)>(report: map<S, nat>, states: map<U, S>, seen: set<U>, u: U)
    requires Tallies(report, states, seen) && u in states && u !in seen
    ensures Tallies(report[states[u] := Count(report, states[u]) + 1], states, seen + {u})
  {
    hide HavingAmong;
    var more := report[states[u] := Count(report, states[u]) + 1];
    forall s ensures Count(more, s) == |HavingAmong(states, s, seen + {u})| {
      OneMoreHaving(states, s, seen, u);
      assert Count(report, s) == |HavingAmong(states, s, seen)|;
    }
  }

  lemma AllTallied<U, S(!new)>(report: map<S, nat>, states: map<U, S>, filter: Option<set<U>>, missing: S)
    requires Tallies(report, states, states.Keys)
    ensures var n := |Unseen(states, filter)|;
            var final := if n > 0 then report[missing := n] else report;
            && (forall s :: Count(final, s) == |Counted(states, filter, missing, s)|)
            && (forall s | s in final :: final[s] > 0)
  {
    hide Having, HavingAmong, Unseen;
    forall s ensures |HavingAmong(states, s, states.Keys)| == |Having(states, s)| {
      HavingEnds(states, s);
    }
  }

  predicate Splits<U(==)>(all: set<U>, todo: set<U>, seen: set<U>)
  {
    todo + seen == all && todo !! seen
  }

  function Without<U(==)>(s: set<U>, seen: set<U>): set<U>
  {
    s - seen
  }

  lemma SplitsEnds<U>(all: set<U>, s: set<U>)
    ensures Splits(all, all, {}) && Without(s, {}) == s
  {
  }

  lemma SplitsDone<U>(all: set<U>, seen: set<U>)
    requires Splits(all, {}, seen)
    ensures seen == all
  {
  }

  lemma OneMoreSeen<U>(all: set<U>, todo: set<U>, seen: set<U>, u: U, s: set<U>)
    requires Splits(all, todo, seen) && u in todo
    ensures Splits(all, todo - {u}, seen + {u}) && u in all && u !in seen
    ensures Without(s, seen + {u}) == Without(s, seen) - {u}
  {
  }

  /** One line for every state some device is in, and one for the devices the log says nothing about. */
  method Summarize<U(==), S(==, !new)>(states: map<U, S>, filter: Option<set<U>>, missing: S)
    returns (report: map<S, nat>)
    ensures forall s :: Count(report, s) == |Counted(states, filter, missing, s)|
    ensures forall s | s in report :: report[s] > 0
  {
    hide Tallies, Counted, Having, Count, Splits, Without, Unseen;
    report := map[];
    var filterUuids := if filter.Some? then filter.value else {};
    var todo := states.Keys;
    ghost var seen: set<U> := {};
    NothingTallied(states);
    SplitsEnds(states.Keys, filterUuids);
    while todo != {}
      invariant Splits(states.Keys, todo, seen)
      invariant Tallies(report, states, seen)
      invariant filterUuids == if filter.Some? then Without(filter.value, seen) else {}
    {
      var uuid :| uuid in todo;
      OneMoreSeen(states.Keys, todo, seen, uuid, if filter.Some? then filter.value else {});
      OneMoreTallied(report, states, seen, uuid);
      report := report[states[uuid] := Count(report, states[uuid]) + 1];
      filterUuids := filterUuids - {uuid};
      todo := todo - {uuid};
      seen := seen + {uuid};
    }
    SplitsDone(states.Keys, seen);
    UnseenIsTheRest(states, filter, filterUuids);
    AllTallied(report, states, filter, missing);
    if |filterUuids| > 0 {
      report := report[missing := |filterUuids|];
    }
  }

  /** The sequence holds each element of the set once. */
  predicate Lists<U(==)>(result: seq<U>, s: set<U>)
  {
    (set u | u in result) == s && |result| == |s|
  }

  lemma OneMoreListed<U>(result: seq<U>, s: set<U>, u: U)
    requires Lists(result, s) && u !in s
    ensures Lists(result + [u], s + {u})
  {
  }

  /** The elements of a set in some order, as Go's range over a map yields its keys. */
  method ListOf<U(==)>(s: set<U>) returns (result: seq<U>)
    ensures Lists(result, s)
  {
    hide Lists, Splits;
    result := [];
    var rest := s;
    ghost var done: set<U> := {};
    NothingListed<U>();
    SplitsEnds(s, s);
    while rest != {}
      invariant Splits(s, rest, done) && Lists(result, done)
    {
      var uuid :| uuid in rest;
      OneMoreSeen(s, rest, done, uuid, s);
      OneMoreListed(result, done, uuid);
      result := result + [uuid];
      rest := rest - {uuid};
      done := done + {uuid};
    }
    SplitsDone(s, done);
  }

  lemma NothingListed<U>()
    ensures Lists<U>([], {})
  {
  }

  lemma UnseenIsTheRest<U, S>(states: map<U, S>, filter: Option<set<U>>, rest: set<U>)
    requires rest == if filter.Some? then Without(filter.value, states.Keys) else {}
    ensures rest == Unseen(states, filter)
  {
  }

  /** The query lists every device in the wanted state once, in no fixed order. */
  method StateFor<U(==), S(==)>(states: map<U, S>, filter: Option<set<U>>, missing: S, filterState: S)
    returns (result: seq<U>)
    ensures Lists(result, Listed(states, filter, missing, filterState))
  {
    hide Having, HavingAmong, Lists, Unseen, Splits, Without;
    result := [];
    var filterUuids := if filter.Some? then filter.value else {};
    var todo := states.Keys;
    ghost var seen: set<U> := {};
    HavingEnds(states, filterState);
    NothingListed<U>();
    SplitsEnds(states.Keys, filterUuids);
    while todo != {}
      invariant Splits(states.Keys, todo, seen)
      invariant Lists(result, HavingAmong(states, filterState, seen))
      invariant filterUuids == if filter.Some? then Without(filter.value, seen) else {}
    {
      var uuid :| uuid in todo;
      OneMoreSeen(states.Keys, todo, seen, uuid, if filter.Some? then filter.value else {});
      OneMoreHaving(states, filterState, seen, uuid);
      if states[uuid] == filterState {
        OneMoreListed(result, HavingAmong(states, filterState, seen), uuid);
        result := result + [uuid];
      }
      filterUuids := filterUuids - {uuid};
      todo := todo - {uuid};
      seen := seen + {uuid};
    }
    SplitsDone(states.Keys, seen);
    if filterState == missing {
      UnseenIsTheRest(states, filter, filterUuids);
      result := ListOf(filterUuids);
    }
  }

  // ---- Summaries against queries ----

  ghost function Sum<S>(report: map<S, nat>, keys: set<S>): nat
    requires keys <= report.Keys
  {
    if keys == {} then 0
    else
      var k :| k in keys;
      report[k] + Sum(report, keys - {k})
  }

  function ClassOf<U, S>(states: map<U, S>, missing: S, u: U): S
  {
    if u in states then states[u] else missing
  }

  /** The devices that some line of the summary in `keys` counts. */
  function CountedIn<U, S(==)>(states: map<U, S>, filter: Option<set<U>>, missing: S, keys: set<S>): set<U>
  {
    set u | u in Everyone(states, filter) && ClassOf(states, missing, u) in keys
            && u in Counted(states, filter, missing, ClassOf(states, missing, u))
  }

  lemma CountedSplits<U, S>(keys: set<S>, k: S, states: map<U, S>, filter: Option<set<U>>, missing: S)
    requires k in keys
    ensures CountedIn(states, filter, missing, keys)
         == CountedIn(states, filter, missing, keys - {k}) + Counted(states, filter, missing, k)
    ensures CountedIn(states, filter, missing, keys - {k}) !! Counted(states, filter, missing, k)
  {
  }

  lemma {:induction false} SumOfCounts<U, S>(report: map<S, nat>, keys: set<S>, states: map<U, S>,
                                             filter: Option<set<U>>, missing: S)
    requires keys <= report.Keys
    requires forall s | s in keys :: report[s] == |Counted(states, filter, missing, s)|
    ensures Sum(report, keys) == |CountedIn(states, filter, missing, keys)|
  {
    hide Counted;
    if keys == {} {
      assert CountedIn(states, filter, missing, keys) == {};
    } else {
      hide CountedIn;
      var k :| k in keys && Sum(report, keys) == report[k] + Sum(report, keys - {k});
      SumOfCounts(report, keys - {k}, states, filter, missing);
      CountedSplits(keys, k, states, filter, missing);
    }
  }

  /** The counts of the summary add up to the number of devices, and each of them is the size of the matching query,
      exactly when no device's own state is the one reserved for missing devices. */
  lemma SummaryAgrees<U, S(!new)>(report: map<S, nat>, states: map<U, S>, filter: Option<set<U>>, missing: S)
    requires forall s :: Count(report, s) == |Counted(states, filter, missing, s)|
    ensures (Sum(report, report.Keys) == |states.Keys + if filter.Some? then filter.value else {}|
             && forall s :: Count(report, s) == |Listed(states, filter, missing, s)|)
            <==> forall u | u in states :: states[u] != missing
  {
    HavingAndEveryone(states, filter, missing);
    hide Counted, Listed, CountedIn, Everyone, Having;
    forall s | s in report.Keys ensures report[s] == |Counted(states, filter, missing, s)| {
      assert Count(report, s) == report[s];
    }
    SumOfCounts(report, report.Keys, states, filter, missing);
    if Having(states, missing) == {} {
      forall s ensures Counted(states, filter, missing, s) == Listed(states, filter, missing, s) {
        NothingIsReplaced(states, filter, missing, s);
      }
      EveryoneIsCounted(report, states, filter, missing);
    } else {
      var u :| u in Having(states, missing);
      StateIsLost(report, states, filter, missing, u);
    }
  }

  lemma HavingAndEveryone<U, S>(states: map<U, S>, filter: Option<set<U>>, s: S)
    ensures Having(states, s) == {} <==> forall u | u in states :: states[u] != s
    ensures Everyone(states, filter) == states.Keys + if filter.Some? then filter.value else {}
  {
    forall u | u in states ensures u in Having(states, s) <==> states[u] == s {}
  }

  lemma StateIsLost<U, S(!new)>(report: map<S, nat>, states: map<U, S>, filter: Option<set<U>>, missing: S, u: U)
    requires u in Having(states, missing)
    ensures |CountedIn(states, filter, missing, report.Keys)| < |Everyone(states, filter)|
         || |Counted(states, filter, missing, missing)| != |Listed(states, filter, missing, missing)|
  {
    if Unseen(states, filter) != {} {
      SmallerSubset(CountedIn(states, filter, missing, report.Keys), Everyone(states, filter), u);
    } else {
      assert |Having(states, missing)| > 0;
    }
  }

  lemma NothingIsReplaced<U, S>(states: map<U, S>, filter: Option<set<U>>, missing: S, s: S)
    requires Having(states, missing) == {}
    ensures Counted(states, filter, missing, s) == Listed(states, filter, missing, s)
  {
  }

  lemma EveryoneIsCounted<U, S(!new)>(report: map<S, nat>, states: map<U, S>, filter: Option<set<U>>, missing: S)
    requires forall s :: Count(report, s) == |Counted(states, filter, missing, s)|
    requires Having(states, missing) == {}
    ensures CountedIn(states, filter, missing, report.Keys) == Everyone(states, filter)
  {
    forall u | u in Everyone(states, filter) ensures u in CountedIn(states, filter, missing, report.Keys) {
      var s := ClassOf(states, missing, u);
      IsCounted(states, filter, missing, u);
      CountedIsReported(report, Counted(states, filter, missing, s), s, u);
    }
  }

  lemma IsCounted<U, S>(states: map<U, S>, filter: Option<set<U>>, missing: S, u: U)
    requires Having(states, missing) == {} && u in Everyone(states, filter)
    ensures u in Counted(states, filter, missing, ClassOf(states, missing, u))
  {
    if u in states {
      assert u in Having(states, states[u]);
    }
  }

  lemma CountedIsReported<U, S>(report: map<S, nat>, counted: set<U>, status: S, u: U)
    requires Count(report, status) == |counted| && u in counted
    ensures status in report
  {
  }

  lemma SmallerSubset<U>(a: set<U>, b: set<U>, u: U)
    requires a <= b && u in b && u !in a
    ensures |a| < |b|
  {
    assert b == a + (b - a);
    assert u in b - a;
    assert |b| == |a| + |b - a|;
  }

  /** Each device is listed by the query for its own state and by no other, unless its state is the reserved one. */
  lemma QueriesPartition<U, S>(states: map<U, S>, filter: Option<set<U>>, missing: S, u: U, s: S)
    requires u in states ==> states[u] != missing
    ensures u in Listed(states, filter, missing, s)
        <==> if u in states then s == states[u] else filter.Some? && u in filter.value && s == missing
  {
  }
}
