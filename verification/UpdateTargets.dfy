/** Which targets an update installs: for each hardware id, the first visited among the highest versions that carry the
    update's tag. Go visits the targets of the metadata in no fixed order, so the visiting order is a parameter. */
module UpdateTargets {
  import opened TextLines

  /** The custom metadata of a target; `version` is nothing when it is not a decimal string. */
  datatype Custom = NoCustom | BadCustom | Custom(version: Option<int>, tags: set<string>, hardwareIds: seq<string>)

  datatype Target = Target(name: string, custom: Custom)

  predicate Candidate(t: Target, tag: string)
  {
    t.custom.Custom? && tag in t.custom.tags && t.custom.hardwareIds != []
  }

  /** The target cannot be judged, which fails the whole query. */
  predicate Unjudged(t: Target, tag: string)
  {
    t.custom.BadCustom? || (Candidate(t, tag) && t.custom.version.None?)
  }

  predicate For(t: Target, tag: string, hwId: string)
  {
    Candidate(t, tag) && t.custom.version.Some? && hwId in t.custom.hardwareIds
  }

  function VersionOf(t: Target): int
  {
    if t.custom.Custom? && t.custom.version.Some? then t.custom.version.value else 0
  }

  /** No other target for the hardware id has a higher version. */
  predicate Latest(targets: seq<Target>, tag: string, hwId: string, t: Target)
  {
    && t in targets && For(t, tag, hwId)
    && forall o | o in targets && For(o, tag, hwId) :: VersionOf(o) <= VersionOf(t)
  }

  /** The target is chosen at `i`: higher than all before it, and not lower than any behind it. */
  predicate ChosenAt(order: seq<Target>, tag: string, hwId: string, i: nat)
  {
    && i < |order| && For(order[i], tag, hwId)
    && (forall j | 0 <= j < i && For(order[j], tag, hwId) :: VersionOf(order[j]) < VersionOf(order[i]))
    && (forall j | i < j < |order| && For(order[j], tag, hwId) :: VersionOf(order[j]) <= VersionOf(order[i]))
  }

  function Choose(order: seq<Target>, tag: string, hwId: string): (choice: Option<nat>)
    ensures choice.Some? ==> ChosenAt(order, tag, hwId, choice.value)
    ensures choice.None? ==> forall i | 0 <= i < |order| :: !For(order[i], tag, hwId)
  {
    if order == [] then None
    else
      var n := |order| - 1;
      var before := order[..n];
      var choice := Choose(before, tag, hwId);
      assert forall j | 0 <= j < n :: before[j] == order[j];
      if For(order[n], tag, hwId) && (choice.None? || VersionOf(order[n]) > VersionOf(before[choice.value])) then
        Some(n)
      else choice
  }

  lemma ChoiceIsUnique(order: seq<Target>, tag: string, hwId: string, i: nat)
    requires ChosenAt(order, tag, hwId, i)
    ensures Choose(order, tag, hwId) == Some(i)
  {
    hide VersionOf;
    var c := Choose(order, tag, hwId);
    assert c.Some? ==> For(order[c.value], tag, hwId);
  }

  lemma OneMoreTarget(order: seq<Target>, t: Target, tag: string, hwId: string)
    ensures var c := Choose(order, tag, hwId);
            Choose(order + [t], tag, hwId) ==
              if For(t, tag, hwId) && (c.None? || VersionOf(t) > VersionOf(order[c.value])) then Some(|order|) else c
  {
    hide For, VersionOf, ChosenAt;
    assert (order + [t])[..|order|] == order;
  }

  // ---- The loop ----

  datatype Best = Best(target: Target, version: int)

  predicate Holds(order: seq<Target>, tag: string, byHwId: map<string, Best>, hwId: string)
  {
    var c := Choose(order, tag, hwId);
    if c.None? then hwId !in byHwId
    else hwId in byHwId && byHwId[hwId] == Best(order[c.value], VersionOf(order[c.value]))
  }

  function Improve(byHwId: map<string, Best>, hwId: string, t: Target, version: int): map<string, Best>
  {
    if hwId !in byHwId || version > byHwId[hwId].version then byHwId[hwId := Best(t, version)] else byHwId
  }

  lemma OthersHold(order: seq<Target>, t: Target, tag: string, byHwId: map<string, Best>, hwId: string)
    requires Holds(order, tag, byHwId, hwId) && !For(t, tag, hwId)
    ensures Holds(order + [t], tag, byHwId, hwId)
  {
    hide For, VersionOf, Choose;
    OneMoreTarget(order, t, tag, hwId);
  }

  /** Looking at the target again, for a hardware id it lists twice, changes nothing. */
  lemma ImprovedHolds(order: seq<Target>, t: Target, tag: string, byHwId: map<string, Best>, hwId: string)
    requires Holds(order, tag, byHwId, hwId) || Holds(order + [t], tag, byHwId, hwId)
    requires For(t, tag, hwId)
    ensures Holds(order + [t], tag, Improve(byHwId, hwId, t, VersionOf(t)), hwId)
  {
    hide For, VersionOf, Choose;
    OneMoreTarget(order, t, tag, hwId);
  }

  lemma ElsewhereHolds(order: seq<Target>, tag: string, byHwId: map<string, Best>, hwId: string, t: Target,
                       version: int, h: string)
    requires Holds(order, tag, byHwId, h) && h != hwId
    ensures Holds(order, tag, Improve(byHwId, hwId, t, version), h)
  {
    hide Choose, VersionOf;
  }

  method ImproveAll(ghost order: seq<Target>, t: Target, tag: string, best: map<string, Best>)
    returns (better: map<string, Best>)
    requires Candidate(t, tag) && t.custom.version.Some?
    requires forall h :: Holds(order, tag, best, h)
    ensures forall h :: Holds(order + [t], tag, better, h)
  {
    hide Holds;
    var hardwareIds, version := t.custom.hardwareIds, t.custom.version.value;
    ghost var now := order + [t];
    better := best;
    for k := 0 to |hardwareIds|
      invariant forall h :: Holds(if h in hardwareIds[..k] then now else order, tag, better, h)
    {
      var hwId := hardwareIds[k];
      ghost var was, seen, done := better, hardwareIds[..k], hardwareIds[..k + 1];
      assert done == seen + [hwId];
      better := Improve(better, hwId, t, version);
      forall h ensures Holds(if h in done then now else order, tag, better, h) {
        assert Holds(if h in seen then now else order, tag, was, h);
        if h == hwId {
          ImprovedHolds(order, t, tag, was, hwId);
        } else {
          ElsewhereHolds(if h in seen then now else order, tag, was, hwId, t, version, h);
        }
      }
    }
    assert hardwareIds[..|hardwareIds|] == hardwareIds;
    forall h ensures Holds(now, tag, better, h) {
      assert Holds(if h in hardwareIds then now else order, tag, better, h);
      if h !in hardwareIds {
        OthersHold(order, t, tag, better, h);
      }
    }
  }

  predicate Named(order: seq<Target>, tag: string, i: nat)
    requires i < |order|
  {
    order[i].custom.Custom? && exists h | h in order[i].custom.hardwareIds :: Choose(order, tag, h) == Some(i)
  }

  /** The names of all chosen targets; nothing when there are none. */
  function Names(order: seq<Target>, tag: string): Option<set<string>>
  {
    var names := set i | 0 <= i < |order| && Named(order, tag, i) :: order[i].name;
    if names == {} then None else Some(names)
  }

  // ---- What the names mean ----

  /** The target is for this hardware id and carries the tag, as its metadata says. */
  ghost predicate Carries(t: Target, tag: string, hwId: string)
  {
    t.custom.Custom? && tag in t.custom.tags && hwId in t.custom.hardwareIds
  }

  /** A target that carries the tag for this hardware id, and no other one that does has a higher version. */
  ghost predicate Newest(targets: seq<Target>, tag: string, hwId: string, t: Target)
  {
    && t in targets && Carries(t, tag, hwId) && t.custom.version.Some?
    && forall o | o in targets && Carries(o, tag, hwId) ::
         o.custom.version.Some? && o.custom.version.value <= t.custom.version.value
  }

  ghost predicate NewestOfSome(targets: seq<Target>, tag: string, t: Target)
  {
    exists h :: Newest(targets, tag, h, t)
  }

  /** Each name is that of a newest target of the tag for some hardware id, and each hardware id of a target with the
      tag has its newest target named. */
  ghost predicate NamesNewest(targets: seq<Target>, tag: string, names: Option<set<string>>)
  {
    && (names.Some? ==> forall n | n in names.value :: exists t :: NewestOfSome(targets, tag, t) && t.name == n)
    && (forall t, h | t in targets && Carries(t, tag, h) ::
          names.Some? && exists o :: Newest(targets, tag, h, o) && o.name in names.value)
    && (names.Some? ==> names.value != {})
  }

  lemma LatestIsNewest(order: seq<Target>, tag: string, h: string, t: Target)
    requires forall o | o in order :: !Unjudged(o, tag)
    ensures Latest(order, tag, h, t) <==> Newest(order, tag, h, t)
  {
    forall o | o in order ensures For(o, tag, h) <==> Carries(o, tag, h) {
      assert !Unjudged(o, tag);
    }
  }

  lemma NamesAreNewest(order: seq<Target>, tag: string)
    requires forall t | t in order :: !Unjudged(t, tag)
    ensures NamesNewest(order, tag, Names(order, tag))
  {
    hide Choose, VersionOf, Named, Names, Latest, Newest, Unjudged;
    var names := Names(order, tag);
    if names.Some? {
      NamesNotEmpty(order, tag);
      forall n | n in names.value ensures exists t :: NewestOfSome(order, tag, t) && t.name == n {
        NameMeans(order, tag, n);
        var i: nat :| i < |order| && Named(order, tag, i) && order[i].name == n;
        NamedIsLatest(order, tag, i);
        var h :| Latest(order, tag, h, order[i]);
        LatestIsNewest(order, tag, h, order[i]);
        assert NewestOfSome(order, tag, order[i]);
      }
    }
    forall t, h | t in order && Carries(t, tag, h)
      ensures names.Some? && exists o :: Newest(order, tag, h, o) && o.name in names.value
    {
      CarriedIsChosen(order, tag, h, t);
      var c := Choose(order, tag, h).value;
      ChosenIsLatest(order, tag, h, c);
      LatestIsNewest(order, tag, h, order[c]);
      ChosenIsNamed(order, tag, h);
      NameMeans(order, tag, order[c].name);
    }
  }

  lemma CarriedIsChosen(order: seq<Target>, tag: string, h: string, t: Target)
    requires t in order && Carries(t, tag, h) && !Unjudged(t, tag)
    ensures Choose(order, tag, h).Some? && ChosenAt(order, tag, h, Choose(order, tag, h).value)
  {
    hide Choose, VersionOf;
    var j :| 0 <= j < |order| && order[j] == t;
    assert For(order[j], tag, h);
  }

  /** What the query for the targets of an update answers. */
  datatype Selection = Failed | Selected(names: Option<set<string>>)

  /** Fails if and only if some target's metadata is malformed, or one that carries the tag for some hardware id has no
      decimal version; else the names are those of the newest targets of the tag. */
  method LatestUpdateTargets(order: seq<Target>, tag: string) returns (r: Selection)
    ensures r.Failed? <==> exists t :: t in order && Unjudged(t, tag)
    ensures r.Failed? <==>
              exists t :: t in order && (t.custom.BadCustom?
                || (t.custom.Custom? && tag in t.custom.tags && t.custom.hardwareIds != [] && t.custom.version.None?))
    ensures r.Selected? ==> r.names == Names(order, tag) && NamesNewest(order, tag, r.names)
  {
    UnjudgedMeans(tag);
    hide Holds, Unjudged;
    var byHwId: map<string, Best> := map[];
    NothingHeld(tag, byHwId);
    for i := 0 to |order|
      invariant forall t | t in order[..i] :: !Unjudged(t, tag)
      invariant forall h :: Holds(order[..i], tag, byHwId, h)
    {
      var t := order[i];
      ghost var before, now := order[..i], order[..i] + [t];
      assert order[..i + 1] == now && t in order;
      JudgedWhen(t, tag);
      if t.custom.BadCustom? || (Candidate(t, tag) && t.custom.version.None?) {
        return Failed;
      }
      if !Candidate(t, tag) {
        forall h ensures Holds(now, tag, byHwId, h) {
          OthersHold(before, t, tag, byHwId, h);
        }
        continue;
      }
      byHwId := ImproveAll(before, t, tag, byHwId);
    }
    assert order[..|order|] == order;
    HeldNames(order, tag, byHwId);
    NamesAreNewest(order, tag);
    r := Selected(if byHwId == map[] then None else Some(set h | h in byHwId :: byHwId[h].target.name));
  }

  lemma UnjudgedMeans(tag: string)
    ensures forall t :: Unjudged(t, tag) <==>
              (t.custom.BadCustom?
               || (t.custom.Custom? && tag in t.custom.tags && t.custom.hardwareIds != [] && t.custom.version.None?))
  {
  }

  lemma NothingHeld(tag: string, byHwId: map<string, Best>)
    requires byHwId == map[]
    ensures forall h :: Holds([], tag, byHwId, h)
  {
  }

  lemma JudgedWhen(t: Target, tag: string)
    ensures Unjudged(t, tag) <==> t.custom.BadCustom? || (Candidate(t, tag) && t.custom.version.None?)
  {
  }

  lemma HeldNames(order: seq<Target>, tag: string, byHwId: map<string, Best>)
    requires forall h :: Holds(order, tag, byHwId, h)
    ensures Names(order, tag) == if byHwId == map[] then None else Some(set h | h in byHwId :: byHwId[h].target.name)
  {
    hide Choose, VersionOf, For;
    var names := set i | 0 <= i < |order| && Named(order, tag, i) :: order[i].name;
    var held := set h | h in byHwId :: byHwId[h].target.name;
    forall h | h in byHwId ensures byHwId[h].target.name in names {
      assert Holds(order, tag, byHwId, h);
      ChosenIsNamed(order, tag, h);
    }
    forall n | n in names ensures n in held {
      var i :| 0 <= i < |order| && Named(order, tag, i) && order[i].name == n;
      var h :| h in order[i].custom.hardwareIds && Choose(order, tag, h) == Some(i);
      assert Holds(order, tag, byHwId, h);
    }
    assert names == held;
    if byHwId != map[] {
      var h :| h in byHwId;
      assert byHwId[h].target.name in held;
    }
  }

  lemma ChosenIsNamed(order: seq<Target>, tag: string, h: string)
    requires Choose(order, tag, h).Some?
    ensures Choose(order, tag, h).value < |order| && Named(order, tag, Choose(order, tag, h).value)
  {
    hide Choose;
    assert ChosenAt(order, tag, h, Choose(order, tag, h).value);
  }

  // ---- When the visiting order matters ----

  predicate DistinctNames(targets: seq<Target>)
  {
    forall i, j | 0 <= i < j < |targets| :: targets[i].name != targets[j].name
  }

  /** The only latest target of some hardware id. */
  ghost predicate Sole(targets: seq<Target>, tag: string, t: Target)
  {
    exists h :: Latest(targets, tag, h, t) && forall o | Latest(targets, tag, h, o) :: o == t
  }

  /** A target that ties for one hardware id is the only latest one of another. No log line without a target is affected
      by the choice, so a target without a name does not matter. */
  ghost predicate Settled(targets: seq<Target>, tag: string)
  {
    forall h, t | Latest(targets, tag, h, t) && t.name != "" :: Sole(targets, tag, t)
  }

  /** The names by which a log line can belong to the update. */
  function Telling(names: Option<set<string>>): set<string>
  {
    if names.Some? then names.value - {""} else {}
  }

  lemma SameLatest(a: seq<Target>, b: seq<Target>, tag: string, h: string, t: Target)
    requires multiset(a) == multiset(b)
    ensures Latest(a, tag, h, t) <==> Latest(b, tag, h, t)
  {
    forall o ensures o in a <==> o in b {
      assert o in multiset(a) <==> o in multiset(b);
    }
  }

  lemma ChosenIsLatest(order: seq<Target>, tag: string, h: string, i: nat)
    requires ChosenAt(order, tag, h, i)
    ensures Latest(order, tag, h, order[i])
  {
    hide For, VersionOf;
    forall o | o in order && For(o, tag, h) ensures VersionOf(o) <= VersionOf(order[i]) {
      var j :| 0 <= j < |order| && order[j] == o;
    }
  }

  lemma NameMeans(order: seq<Target>, tag: string, n: string)
    ensures Names(order, tag).Some? && n in Names(order, tag).value <==>
              exists i: nat :: i < |order| && Named(order, tag, i) && order[i].name == n
  {
    hide Named;
    var names := set i | 0 <= i < |order| && Named(order, tag, i) :: order[i].name;
    if i: nat :| i < |order| && Named(order, tag, i) && order[i].name == n {
      assert order[i].name in names;
    }
  }

  lemma SettledNameStays(a: seq<Target>, b: seq<Target>, tag: string, n: string)
    requires multiset(a) == multiset(b) && Settled(a, tag)
    requires n in Telling(Names(a, tag))
    ensures n in Telling(Names(b, tag))
  {
    hide Choose, For, VersionOf, Names, Named, Latest;
    NameMeans(a, tag, n);
    var i: nat :| i < |a| && Named(a, tag, i) && a[i].name == n;
    var t := a[i];
    NamedIsLatest(a, tag, i);
    assert Sole(a, tag, t);
    var h :| Latest(a, tag, h, t) && forall o | Latest(a, tag, h, o) :: o == t;
    SameLatest(a, b, tag, h, t);
    var c := Choose(b, tag, h);
    LatestIsChosen(b, tag, h, t);
    ChosenIsLatest(b, tag, h, c.value);
    SameLatest(a, b, tag, h, b[c.value]);
    ChosenIsNamed(b, tag, h);
    NameMeans(b, tag, n);
  }

  lemma NamedIsLatest(order: seq<Target>, tag: string, i: nat)
    requires i < |order| && Named(order, tag, i)
    ensures exists h :: Latest(order, tag, h, order[i])
  {
    hide Choose, Latest, For;
    var h :| h in order[i].custom.hardwareIds && Choose(order, tag, h) == Some(i);
    ChosenIsLatest(order, tag, h, i);
  }

  lemma LatestIsChosen(order: seq<Target>, tag: string, h: string, t: Target)
    requires Latest(order, tag, h, t)
    ensures Choose(order, tag, h).Some? && ChosenAt(order, tag, h, Choose(order, tag, h).value)
  {
    hide Choose, VersionOf;
    var j :| 0 <= j < |order| && order[j] == t;
    assert For(order[j], tag, h);
  }

  /** Every order gives the same names when all ties are settled. */
  lemma SettledNames(a: seq<Target>, b: seq<Target>, tag: string)
    requires multiset(a) == multiset(b) && Settled(a, tag)
    ensures Telling(Names(a, tag)) == Telling(Names(b, tag)) && Names(a, tag).Some? == Names(b, tag).Some?
  {
    hide Settled, Names, Telling;
    SettledEither(a, b, tag);
    forall n ensures n in Telling(Names(a, tag)) <==> n in Telling(Names(b, tag)) {
      if n in Telling(Names(a, tag)) { SettledNameStays(a, b, tag, n); }
      if n in Telling(Names(b, tag)) { SettledNameStays(b, a, tag, n); }
    }
    if Names(a, tag).Some? { SomeNamesStay(a, b, tag); }
    if Names(b, tag).Some? { SomeNamesStay(b, a, tag); }
  }

  lemma SettledEither(a: seq<Target>, b: seq<Target>, tag: string)
    requires multiset(a) == multiset(b) && Settled(a, tag)
    ensures Settled(b, tag)
  {
    hide Latest;
    forall h, t ensures Latest(a, tag, h, t) <==> Latest(b, tag, h, t) {
      SameLatest(a, b, tag, h, t);
    }
    forall h, t | Latest(b, tag, h, t) && t.name != "" ensures Sole(b, tag, t) {
      assert Sole(a, tag, t);
    }
  }

  lemma SomeNamesStay(a: seq<Target>, b: seq<Target>, tag: string)
    requires multiset(a) == multiset(b) && Names(a, tag).Some?
    ensures Names(b, tag).Some?
  {
    hide Choose, For, VersionOf, Named, Latest, Names;
    NamesNotEmpty(a, tag);
    var n :| n in Names(a, tag).value;
    NameMeans(a, tag, n);
    var i: nat :| i < |a| && Named(a, tag, i);
    NamedIsLatest(a, tag, i);
    var h :| Latest(a, tag, h, a[i]);
    SameLatest(a, b, tag, h, a[i]);
    LatestIsChosen(b, tag, h, a[i]);
    ChosenIsNamed(b, tag, h);
    NameMeans(b, tag, b[Choose(b, tag, h).value].name);
  }

  lemma NamesNotEmpty(order: seq<Target>, tag: string)
    requires Names(order, tag).Some?
    ensures Names(order, tag).value != {}
  {
  }

  /** Visited first, a tying target is chosen; visited last, one that is nowhere the only latest is not. */
  lemma UnsettledNames(targets: seq<Target>, tag: string, h: string, t: Target)
    returns (first: seq<Target>, last: seq<Target>)
    requires DistinctNames(targets)
    requires Latest(targets, tag, h, t) && !Sole(targets, tag, t)
    ensures multiset(first) == multiset(targets) && multiset(last) == multiset(targets)
    ensures Names(first, tag).Some? && t.name in Names(first, tag).value
    ensures Names(last, tag).Some? && t.name !in Names(last, tag).value
  {
    hide Choose, VersionOf, Names, Named, Sole;
    var k :| 0 <= k < |targets| && targets[k] == t;
    var rest := targets[..k] + targets[k + 1..];
    assert targets == targets[..k] + [t] + targets[k + 1..];
    first, last := [t] + rest, rest + [t];
    FirstIsNamed(targets, first, tag, h, t);
    LastIsNotNamed(targets, rest, last, tag, h, t);
  }

  lemma FirstIsNamed(targets: seq<Target>, first: seq<Target>, tag: string, h: string, t: Target)
    requires multiset(first) == multiset(targets) && first != [] && first[0] == t && Latest(targets, tag, h, t)
    ensures Names(first, tag).Some? && t.name in Names(first, tag).value
  {
    hide Choose, VersionOf, Names, Named;
    SameLatest(targets, first, tag, h, t);
    forall j | 0 < j < |first| && For(first[j], tag, h) ensures VersionOf(first[j]) <= VersionOf(first[0]) {
      assert first[j] in first;
    }
    ChoiceIsUnique(first, tag, h, 0);
    ChosenIsNamed(first, tag, h);
    NameMeans(first, tag, t.name);
  }

  lemma LastIsNotNamed(targets: seq<Target>, rest: seq<Target>, last: seq<Target>, tag: string, h: string, t: Target)
    requires DistinctNames(targets) && multiset(last) == multiset(targets) && last == rest + [t]
    requires Latest(targets, tag, h, t) && !Sole(targets, tag, t)
    requires forall o | o in rest :: o.name != t.name
    ensures Names(last, tag).Some? && t.name !in Names(last, tag).value
  {
    hide Choose, VersionOf, Names, Named, Sole, DistinctNames, Latest;
    SameLatest(targets, last, tag, h, t);
    LatestIsChosen(last, tag, h, t);
    ChosenIsNamed(last, tag, h);
    NameMeans(last, tag, last[Choose(last, tag, h).value].name);
    NameMeans(last, tag, t.name);
    if Names(last, tag).Some? && t.name in Names(last, tag).value {
      var i: nat :| i < |last| && Named(last, tag, i) && last[i].name == t.name;
      LastNamedIsSole(targets, rest, last, tag, t, i);
    }
  }

  lemma OnlyLastHasName(rest: seq<Target>, t: Target, i: nat)
    requires i <= |rest| && forall o | o in rest :: o.name != t.name
    ensures (rest + [t])[i].name == t.name <==> i == |rest|
  {
    if i < |rest| { assert rest[i] in rest; }
  }

  lemma LastOrLower(order: seq<Target>, tag: string, h: string, i: nat, o: Target)
    requires ChosenAt(order, tag, h, i) && i == |order| - 1 && o in order && For(o, tag, h)
    ensures o == order[i] || VersionOf(o) < VersionOf(order[i])
  {
    var j :| 0 <= j < |order| && order[j] == o;
  }

  lemma LastNamedIsSole(targets: seq<Target>, rest: seq<Target>, last: seq<Target>, tag: string, t: Target, i: nat)
    requires multiset(last) == multiset(targets) && last == rest + [t]
    requires forall o | o in rest :: o.name != t.name
    requires i < |last| && Named(last, tag, i) && last[i].name == t.name
    ensures Sole(targets, tag, t)
  {
    hide Choose, VersionOf;
    OnlyLastHasName(rest, t, i);
    var h :| h in last[i].custom.hardwareIds && Choose(last, tag, h) == Some(i);
    assert ChosenAt(last, tag, h, i);
    ChosenIsLatest(last, tag, h, i);
    SameLatest(targets, last, tag, h, t);
    forall o | Latest(targets, tag, h, o) ensures o == t {
      SameLatest(targets, last, tag, h, o);
      LastOrLower(last, tag, h, i, o);
    }
  }
}
