/** The targets, snapshot and timestamp metadata that the server generates for updates: their versions, and the links
    from one file to the bytes of the next. Encoding, hashing and signing are functions the model knows only by law. */
module TufVersions {
  import opened TextLines

  type Bytes = seq<int>

  datatype MetaItem = MetaItem(version: int, length: int, hash: Bytes)

  /** A target's custom version, when its custom metadata holds a decimal one. */
  datatype TargetFile = TargetFile(name: string, appVersion: Option<int>, ostreeHash: Bytes)

  datatype Doc =
    | Targets(version: int, expires: int, files: seq<TargetFile>)
    | Snapshot(version: int, expires: int, targets: MetaItem)
    | Timestamp(version: int, expires: int, snapshot: MetaItem)

  /** How documents become bytes and back; `plain` is the other JSON encoder, which the refresh uses. */
  datatype Codec = Codec(canonical: Doc -> Bytes, plain: Doc -> Bytes, decode: Bytes -> Option<Doc>,
                         hash: Bytes -> Bytes)

  ghost predicate Faithful(c: Codec)
  {
    forall d: Doc :: c.decode(c.canonical(d)) == Some(d) && c.decode(c.plain(d)) == Some(d)
  }

  function ItemFor(c: Codec, bytes: Bytes, version: int): MetaItem
  {
    MetaItem(version, |bytes|, c.hash(bytes))
  }

  /** The metadata directory of one update. */
  datatype Files = Files(targets: Option<Bytes>, snapshot: Option<Bytes>, timestamp: Option<Bytes>)

  type Updates = map<string, Files>

  function Decode(c: Codec, file: Option<Bytes>): Option<Doc>
  {
    if file.None? then None else c.decode(file.value)
  }

  /** An update whose targets metadata is missing, unreadable or of another kind does not count. */
  function TargetsOf(c: Codec, f: Files): Option<Doc>
  {
    var d := Decode(c, f.targets);
    if d.Some? && d.value.Targets? then d else None
  }

  // ---- The latest versions ----

  /** `m` is the largest of `least` and what `value` gives on the listed updates. */
  predicate IsTop(c: Codec, updates: Updates, names: set<string>, least: int, value: Doc -> int, m: int)
    requires names <= updates.Keys
  {
    && least <= m
    && (forall n | n in names && TargetsOf(c, updates[n]).Some? :: value(TargetsOf(c, updates[n]).value) <= m)
    && (m == least || exists n ::
          n in names && TargetsOf(c, updates[n]).Some? && value(TargetsOf(c, updates[n]).value) == m)
  }

  function VersionOf(d: Doc): int
  {
    d.version
  }

  /** The highest custom version among the targets of one update; zero when there is none. */
  function AppVersionOf(d: Doc): (m: int)
    ensures m >= 0
    ensures d.Targets? ==> forall f | f in d.files && f.appVersion.Some? :: f.appVersion.value <= m
    ensures d.Targets? ==> m == 0 || exists f :: f in d.files && f.appVersion == Some(m)
  {
    if d.Targets? then Highest(d.files) else 0
  }

  function Highest(files: seq<TargetFile>): (m: int)
    ensures m >= 0
    ensures forall f | f in files && f.appVersion.Some? :: f.appVersion.value <= m
    ensures m == 0 || exists f :: f in files && f.appVersion == Some(m)
  {
    if files == [] then 0
    else
      var m, v := Highest(files[..|files| - 1]), files[|files| - 1].appVersion;
      if v.Some? && v.value > m then v.value else m
  }

  method GetLatestTargetVersion(files: seq<TargetFile>) returns (maxVersion: int)
    ensures maxVersion == Highest(files)
  {
    maxVersion := 0;
    for i := 0 to |files|
      invariant maxVersion == Highest(files[..i])
    {
      var n := files[i].appVersion;
      assert files[..i + 1][..i] == files[..i];
      if n.Some? && n.value > maxVersion {
        maxVersion := n.value;
      }
    }
    assert files[..|files|] == files;
  }

  lemma TopStep(c: Codec, updates: Updates, seen: set<string>, least: int, value: Doc -> int, m: int, name: string)
    requires seen <= updates.Keys && name in updates
    requires IsTop(c, updates, seen, least, value, m)
    ensures var d := TargetsOf(c, updates[name]);
            IsTop(c, updates, seen + {name}, least, value, if d.Some? && m < value(d.value) then value(d.value) else m)
  {
  }

  method GetLatestVersions(c: Codec, updates: Updates) returns (tufVersion: int, targetVersion: int)
    ensures IsTop(c, updates, updates.Keys, 1, VersionOf, tufVersion)
    ensures IsTop(c, updates, updates.Keys, 0, AppVersionOf, targetVersion)
  {
    hide IsTop, TargetsOf, Highest;
    tufVersion, targetVersion := 1, 0;
    var todo := updates.Keys;
    ghost var seen: set<string> := {};
    TopOfNone(c, updates);
    while todo != {}
      invariant todo + seen == updates.Keys
      invariant IsTop(c, updates, seen, 1, VersionOf, tufVersion)
      invariant IsTop(c, updates, seen, 0, AppVersionOf, targetVersion)
    {
      var name :| name in todo;
      var targets := TargetsOf(c, updates[name]);
      TargetsAreTargets(c, updates[name]);
      TopStep(c, updates, seen, 1, VersionOf, tufVersion, name);
      TopStep(c, updates, seen, 0, AppVersionOf, targetVersion, name);
      if targets.Some? {
        if tufVersion < targets.value.version {
          tufVersion := targets.value.version;
        }
        var latest := GetLatestTargetVersion(targets.value.files);
        if targetVersion < latest {
          targetVersion := latest;
        }
      }
      assert (todo - {name}) + (seen + {name}) == updates.Keys;
      todo := todo - {name};
      seen := seen + {name};
    }
    assert seen == updates.Keys;
  }

  lemma TargetsAreTargets(c: Codec, f: Files)
    ensures TargetsOf(c, f).Some? ==> TargetsOf(c, f).value.Targets?
  {
  }

  lemma TopOfNone(c: Codec, updates: Updates)
    ensures IsTop(c, updates, {}, 1, VersionOf, 1) && IsTop(c, updates, {}, 0, AppVersionOf, 0)
  {
  }

  // ---- Generating ----

  /** The three files of an update form one chain: the snapshot names the very bytes of the targets, and the timestamp
      the very bytes of the snapshot; the timestamp's version leaves a thousand for each version of the targets. */
  predicate Chained(c: Codec, f: Files, version: int)
  {
    && f.targets.Some? && f.snapshot.Some? && f.timestamp.Some?
    && var t, s, ts := c.decode(f.targets.value), c.decode(f.snapshot.value), c.decode(f.timestamp.value);
    && t.Some? && t.value.Targets? && t.value.version == version
    && s.Some? && s.value.Snapshot? && s.value.version == version
    && s.value.targets == MetaItem(version, |f.targets.value|, c.hash(f.targets.value))
    && ts.Some? && ts.value.Timestamp? && ts.value.version == version * 1000
    && ts.value.snapshot == MetaItem(version, |f.snapshot.value|, c.hash(f.snapshot.value))
  }

  /** The chain built on one targets document. */
  method MakeChain(c: Codec, version: int, files: seq<TargetFile>, expires: int, timestampExpires: int)
    returns (f: Files)
    requires Faithful(c)
    ensures Chained(c, f, version)
    ensures TargetsOf(c, f) == Some(Targets(version, expires, files))
    ensures Decode(c, f.timestamp).value.expires == timestampExpires
  {
    var targets := c.canonical(Targets(version, expires, files));
    var targetsMeta := ItemFor(c, targets, version);
    var snapshot := c.canonical(Snapshot(version, expires, targetsMeta));
    var snapshotMeta := ItemFor(c, snapshot, version);
    var timestamp := c.canonical(Timestamp(version * 1000, timestampExpires, snapshotMeta));
    f := Files(Some(targets), Some(snapshot), Some(timestamp));
  }

  /** `ostreeHash` is what the hexadecimal option decodes to, if it does. */
  datatype Options = Options(name: string, appVersion: int, ostreeHash: Option<Bytes>)

  datatype Outcome = Failed | Made(files: Files)

  /** The one target is what the options ask for; without a version of its own it gets the next one. */
  ghost predicate HasTarget(c: Codec, updates: Updates, opts: Options, expires: int, f: Files, version: int)
  {
    opts.ostreeHash.Some? && exists app: int ::
      && (if opts.appVersion != 0 then app == opts.appVersion
          else IsTop(c, updates, updates.Keys, 0, AppVersionOf, app - 1))
      && TargetsOf(c, f) == Some(Targets(version, expires, [TargetFile(opts.name, Some(app), opts.ostreeHash.value)]))
  }

  method GenerateTufMeta(c: Codec, updates: Updates, opts: Options, enabled: bool, expires: int, timestampExpires: int)
    returns (r: Outcome, ghost version: int)
    requires Faithful(c)
    ensures r.Failed? <==> opts.ostreeHash.None? || !enabled
    ensures IsTop(c, updates, updates.Keys, 1, VersionOf, version - 1)
    ensures r.Made? ==> Chained(c, r.files, version) && HasTarget(c, updates, opts, expires, r.files, version)
    ensures r.Made? ==> Decode(c, r.files.timestamp).value.expires == timestampExpires
  {
    hide IsTop;
    var tufVer, tgtVer := GetLatestVersions(c, updates);
    version := tufVer + 1;
    tgtVer := if opts.appVersion != 0 then opts.appVersion else tgtVer + 1;
    if opts.ostreeHash.None? || !enabled {
      return Failed, version;
    }
    var files := MakeChain(c, tufVer + 1, [TargetFile(opts.name, Some(tgtVer), opts.ostreeHash.value)], expires,
                           timestampExpires);
    r := Made(files);
  }

  /** The metadata for devices without an update: version 1 and no targets. */
  method WriteDefaultMeta(c: Codec, expires: int) returns (f: Files)
    requires Faithful(c)
    ensures Chained(c, f, 1) && TargetsOf(c, f) == Some(Targets(1, expires, []))
  {
    f := MakeChain(c, 1, [], expires, expires);
  }

  // ---- Refreshing ----

  const DAY := 86400

  /** The timestamp file after a refresh at `now`; nothing when it cannot be read. */
  function Refreshed(c: Codec, f: Files, now: int, lifetime: int): Option<Files>
  {
    var d := Decode(c, f.timestamp);
    if d.None? || !d.value.Timestamp? then None
    else if d.value.expires > now + DAY then Some(f)
    else Some(f.(timestamp := Some(c.plain(Timestamp(d.value.version, now + lifetime, d.value.snapshot)))))
  }

  /** A refresh moves an expiry that is less than a day ahead, and keeps the chain and its versions; it never raises the
      timestamp's version. */
  lemma RefreshKeepsChain(c: Codec, f: Files, now: int, lifetime: int, version: int)
    requires Faithful(c) && Chained(c, f, version)
    ensures var r := Refreshed(c, f, now, lifetime);
            && r.Some? && Chained(c, r.value, version)
            && r.value.targets == f.targets && r.value.snapshot == f.snapshot
            && var was := Decode(c, f.timestamp).value.expires;
               Decode(c, r.value.timestamp).value.expires == if was > now + 86400 then was else now + lifetime
  {
  }

  // ---- Runs ----

  /** What happens to the list of updates; a foreign update brings whatever metadata its upload holds, or none. */
  datatype Event =
    | Create(name: string, opts: Options, expires: int, timestampExpires: int)
    | Foreign(name: string, files: Files)
    | Delete(name: string)
    | Refresh(now: int, lifetime: int)

  function RefreshAll(c: Codec, updates: Updates, now: int, lifetime: int): Updates
  {
    map n | n in updates ::
      var r := Refreshed(c, updates[n], now, lifetime);
      if r.Some? then r.value else updates[n]
  }

  /** `made` remembers the version of each update the server generated. */
  datatype Sys = Sys(updates: Updates, made: map<string, int>)

  /** One step, as far as the generated files can tell. */
  ghost predicate Next(c: Codec, s: Sys, e: Event, t: Sys)
  {
    match e
    case Create(name, opts, expires, timestampExpires) =>
      name !in s.updates && exists f: Files, v: int ::
        && t == Sys(s.updates[name := f], s.made[name := v])
        && Chained(c, f, v) && IsTop(c, s.updates, s.updates.Keys, 1, VersionOf, v - 1)
        && HasTarget(c, s.updates, opts, expires, f, v)
        && Decode(c, f.timestamp).value.expires == timestampExpires
    case Foreign(name, files) =>
      name !in s.updates && t == Sys(s.updates[name := files], s.made - {name})
    case Delete(name) =>
      t == Sys(s.updates - {name}, s.made - {name})
    case Refresh(now, lifetime) =>
      t == Sys(RefreshAll(c, s.updates, now, lifetime), s.made)
  }

  ghost predicate IsRun(c: Codec, events: seq<Event>, trace: seq<Sys>)
  {
    && |trace| == |events| + 1 && trace[0] == Sys(map[], map[])
    && forall i | 0 <= i < |events| :: Next(c, trace[i], events[i], trace[i + 1])
  }

  /** Every update the server generated has its chain, and no two of them share a version. */
  predicate Inv(c: Codec, s: Sys)
  {
    && s.made.Keys <= s.updates.Keys
    && (forall n | n in s.made :: s.made[n] > 1 && Chained(c, s.updates[n], s.made[n]))
    && (forall m, n | m in s.made && n in s.made && m != n :: s.made[m] != s.made[n])
  }

  /** A created update's version is above that of every listed update with readable metadata and of the default
      metadata; so is its timestamp's, by at least a thousand, against those the server generated. */
  predicate Above(c: Codec, s: Sys, v: int)
  {
    && v > 1
    && (forall n | n in s.updates && TargetsOf(c, s.updates[n]).Some? :: TargetsOf(c, s.updates[n]).value.version < v)
    && (forall n | n in s.made && n in s.updates ::
          Decode(c, s.updates[n].timestamp).Some? && Decode(c, s.updates[n].timestamp).value.version + 1000 <= v * 1000)
  }

  lemma TopIsAbove(c: Codec, s: Sys, v: int)
    requires Inv(c, s) && IsTop(c, s.updates, s.updates.Keys, 1, VersionOf, v - 1)
    ensures Above(c, s, v)
    ensures forall n | n in s.made :: s.made[n] < v
  {
    forall n | n in s.made ensures s.made[n] < v && TargetsOf(c, s.updates[n]).Some? {
      assert Chained(c, s.updates[n], s.made[n]);
      assert VersionOf(TargetsOf(c, s.updates[n]).value) <= v - 1;
    }
    forall n | n in s.updates && TargetsOf(c, s.updates[n]).Some? ensures TargetsOf(c, s.updates[n]).value.version < v {
      assert VersionOf(TargetsOf(c, s.updates[n]).value) <= v - 1;
    }
  }

  lemma NextKeeps(c: Codec, s: Sys, e: Event, t: Sys)
    requires Faithful(c) && Inv(c, s) && Next(c, s, e, t)
    ensures Inv(c, t)
    ensures e.Create? ==> e.name in t.made && Above(c, s, t.made[e.name])
  {
    hide IsTop, Chained, Above, HasTarget, Decode;
    match e
    case Create(name, opts, expires, timestampExpires) =>
      var f: Files, v: int :| t == Sys(s.updates[name := f], s.made[name := v])
        && Chained(c, f, v) && IsTop(c, s.updates, s.updates.Keys, 1, VersionOf, v - 1);
      TopIsAbove(c, s, v);
    case Foreign(name, files) =>
    case Delete(name) =>
    case Refresh(now, lifetime) =>
      forall n | n in t.made ensures Chained(c, t.updates[n], t.made[n]) {
        RefreshKeepsChain(c, s.updates[n], now, lifetime, s.made[n]);
      }
  }

  lemma {:induction false} RunKeeps(c: Codec, events: seq<Event>, trace: seq<Sys>, k: nat)
    requires Faithful(c) && IsRun(c, events, trace) && k < |trace|
    ensures Inv(c, trace[k])
  {
    hide Next;
    if k > 0 {
      RunKeeps(c, events, trace, k - 1);
      assert Next(c, trace[k - 1], events[k - 1], trace[k]);
      NextKeeps(c, trace[k - 1], events[k - 1], trace[k]);
    }
  }

  /** In any run of creations, foreign uploads, deletions and refreshes, every creation gets a version above all listed
      ones, and afterwards every generated update still has its chain, at a version of its own. */
  lemma VersionsOnlyGrow(c: Codec, events: seq<Event>, trace: seq<Sys>, k: nat)
    requires Faithful(c) && IsRun(c, events, trace) && k < |events|
    ensures Inv(c, trace[k + 1])
    ensures events[k].Create? ==>
        events[k].name in trace[k + 1].made && Above(c, trace[k], trace[k + 1].made[events[k].name])
  {
    RunKeeps(c, events, trace, k);
    assert Next(c, trace[k], events[k], trace[k + 1]);
    NextKeeps(c, trace[k], events[k], trace[k + 1]);
  }

  /** The version after a deletion is above the deleted one exactly when a listed update still has as high a version. */
  lemma DeletedVersion(c: Codec, s: Sys, name: string, v: int)
    requires Inv(c, s) && name in s.made
    requires var rest := s.updates - {name}; IsTop(c, rest, rest.Keys, 1, VersionOf, v - 1)
    ensures v > s.made[name] <==>
            exists n :: n in s.updates && n != name && TargetsOf(c, s.updates[n]).Some?
                        && TargetsOf(c, s.updates[n]).value.version >= s.made[name]
  {
    var rest := s.updates - {name};
    if v > s.made[name] {
      var n :| n in rest && TargetsOf(c, rest[n]).Some? && VersionOf(TargetsOf(c, rest[n]).value) == v - 1;
      assert rest[n] == s.updates[n];
    }
    forall n | n in s.updates && n != name && TargetsOf(c, s.updates[n]).Some?
      ensures TargetsOf(c, s.updates[n]).value.version <= v - 1 {
      assert n in rest.Keys && rest[n] == s.updates[n];
      assert VersionOf(TargetsOf(c, rest[n]).value) <= v - 1;
    }
  }

  /** With no other update left, the next creation falls back to version 2, however high the deleted version was. */
  lemma DeletedVersionIsReused(c: Codec, s: Sys, name: string, v: int)
    requires Inv(c, s) && s.updates.Keys == {name} && name in s.made
    requires var rest := s.updates - {name}; IsTop(c, rest, rest.Keys, 1, VersionOf, v - 1)
    ensures v == 2 && v <= s.made[name]
  {
  }

  // ---- The store ----

  /** What the upload's entries have been seen to hold: a repository or apps, a metadata directory with these files;
      and the options probed from the content, unless the probe fails or finds no hash or no hardware id. */
  datatype Upload = Upload(hasContent: bool, hasTuf: bool, files: Files, probed: Option<Options>)

  datatype Deletion = Deleted | InUse | NotFound

  class UpdateStore {
    const codec: Codec
    var updates: Updates
    ghost var made: map<string, int>

    ghost function State(): Sys
      reads this
    {
      Sys(updates, made)
    }

    constructor (codec: Codec)
      ensures this.codec == codec && State() == Sys(map[], map[])
    {
      this.codec := codec;
      updates, made := map[], map[];
    }

    /** Without metadata in the upload the server generates it, and needs its keys and what it probed for
        that; metadata in the upload is kept as it came, and must have a target of the wanted tag. Fails
        without any change when the name is taken, when the upload has neither a repository nor apps, or
        when there is no such metadata. */
    method CreateUpdate(name: string, upload: Upload, hasTag: Bytes -> bool, enabled: bool, expires: int,
                        timestampExpires: int)
      returns (ok: bool)
      requires Faithful(codec)
      modifies this
      ensures ok <==>
                && name !in old(updates) && upload.hasContent
                && (if upload.hasTuf then upload.files.targets.Some? && hasTag(upload.files.targets.value)
                    else enabled && upload.probed.Some? && upload.probed.value.ostreeHash.Some?)
      ensures ok && upload.hasTuf ==> Next(codec, old(State()), Foreign(name, upload.files), State())
      ensures ok && !upload.hasTuf ==>
                Next(codec, old(State()), Create(name, upload.probed.value, expires, timestampExpires), State())
      ensures !ok ==> State() == old(State())
    {
      if name in updates || !upload.hasContent {
        return false;
      }
      if upload.hasTuf {
        if upload.files.targets.None? || !hasTag(upload.files.targets.value) {
          return false;
        }
        updates := updates[name := upload.files];
        made := made - {name};
        return true;
      }
      if !enabled || upload.probed.None? {
        return false;
      }
      ghost var version;
      var r;
      r, version := GenerateTufMeta(codec, updates, upload.probed.value, enabled, expires, timestampExpires);
      if r.Failed? {
        return false;
      }
      updates := updates[name := r.files];
      made := made[name := version];
      return true;
    }

    /** An update whose timestamp cannot be read is skipped. */
    method RefreshTimestamps(now: int, lifetime: int)
      modifies this
      ensures Next(codec, old(State()), Refresh(now, lifetime), State())
    {
      var todo := updates.Keys;
      while todo != {}
        invariant todo <= updates.Keys && updates.Keys == old(updates).Keys && made == old(made)
        invariant forall n | n in updates ::
          updates[n] == if n in todo then old(updates)[n] else RefreshAll(codec, old(updates), now, lifetime)[n]
      {
        var name :| name in todo;
        var f := Refreshed(codec, updates[name], now, lifetime);
        if f.Some? {
          updates := updates[name := f.value];
        }
        todo := todo - {name};
      }
      assert updates == RefreshAll(codec, old(updates), now, lifetime);
    }

    /** Refuses, without any change, when there is no such update, or when a device that is not denied still has it
        (`inUse`, which a trigger on the table decides). */
    method DeleteUpdate(name: string, inUse: set<string>) returns (r: Deletion)
      modifies this
      ensures r == NotFound <==> name !in old(updates)
      ensures r == InUse <==> name in old(updates) && name in inUse
      ensures r == Deleted ==> Next(codec, old(State()), Delete(name), State())
      ensures r != Deleted ==> State() == old(State())
    {
      if name !in updates {
        return NotFound;
      }
      if name in inUse {
        return InUse;
      }
      updates := updates - {name};
      made := made - {name};
      return Deleted;
    }
  }
}
