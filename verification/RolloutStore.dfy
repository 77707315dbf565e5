/** The disk and database steps of rollouts: the journal and its part file, the rollout files and the device rows.
    The functions on `Disk` say what each step does; the class performs the steps on journal text. */
module RolloutStore {
  import opened TextLines

  datatype Key = Key(update: string, name: string)

  /** One journal record, `tag|update|rollout`. */
  datatype Line = Line(tag: string, key: Key)

  /** SQL returns the effective uuids in no promised order, and uuid is the primary key, so `effect` is a set. */
  datatype Rollout = Rollout(createdAt: int, uuids: set<string>, groups: set<string>, effect: set<string>, commit: bool)

  datatype Device = Device(tag: string, group: string, updateName: string)

  /** A missing journal reads as an empty one; a missing part file makes a rollover a no-op. */
  datatype Disk = Disk(journal: seq<Line>, part: Option<seq<Line>>, files: map<Key, Rollout>,
                       devices: map<string, Device>)

  // ---- Journal records as text ----

  /** What the name patterns of the HTTP layer guarantee, as far as the journal cares; they bound no length. */
  predicate ValidName(name: string)
  {
    '|' !in name && '\n' !in name && '\r' !in name
  }

  predicate ValidNames(line: Line)
  {
    ValidName(line.tag) && ValidName(line.key.update) && ValidName(line.key.name)
  }

  /** Short enough for the line reader. */
  predicate Short(line: Line)
  {
    |line.tag| + |line.key.update| + |line.key.name| + 2 < MAX_TOKEN
  }

  predicate ValidLine(line: Line)
  {
    ValidNames(line) && Short(line)
  }

  function Fields(line: Line): seq<string>
  {
    [line.tag, line.key.update, line.key.name]
  }

  function Print(line: Line): string
  {
    Join(Fields(line), '|')
  }

  function Parse(text: string): Option<Line>
  {
    var parts := Split(text, '|');
    if |parts| == 3 then Some(Line(parts[0], Key(parts[1], parts[2]))) else None
  }

  lemma PrintShape(line: Line)
    ensures Print(line) == line.tag + ['|'] + line.key.update + ['|'] + line.key.name
  {
    var f := Fields(line);
    assert f[1..] == [line.key.update, line.key.name];
    assert f[1..][1..] == [line.key.name];
    calc {
      Join(f, '|');
      f[0] + ['|'] + Join(f[1..], '|');
      f[0] + ['|'] + (f[1] + ['|'] + Join(f[1..][1..], '|'));
    }
  }

  /** Only the printed record parses to the record. */
  lemma ParseIsPrint(line: Line, text: string)
    requires ValidNames(line)
    ensures Parse(text) == Some(line) <==> text == Print(line)
  {
    hide Split, Join;
    var f := Fields(line);
    SplitOfJoin(f, '|');
    JoinOfSplit(text, '|');
    if Parse(text) == Some(line) {
      assert Split(text, '|') == f;
    }
  }

  lemma CleanIsShort(line: Line)
    requires ValidNames(line)
    ensures '\n' !in Print(line)
    ensures CleanLine(Print(line)) <==> Short(line)
  {
    PrintShape(line);
    var t := Print(line);
    hide Print;
    assert '\r' !in t && '\n' !in t;
    if |t| > 0 {
      assert t[|t| - 1] in t;
    }
  }

  /** The text holding these records, one a line. */
  function JournalText(lines: seq<Line>): string
  {
    Unlines(seq(|lines|, i requires 0 <= i < |lines| => Print(lines[i])))
  }

  lemma TextAppend(lines: seq<Line>, line: Line)
    ensures JournalText(lines + [line]) == JournalText(lines) + Print(line) + ['\n']
  {
    var printed := seq(|lines|, i requires 0 <= i < |lines| => Print(lines[i]));
    var all := lines + [line];
    assert seq(|all|, i requires 0 <= i < |all| => Print(all[i])) == printed + [Print(line)];
    UnlinesAppend(printed, Print(line));
  }

  /** Reading the journal gives back exactly the records that were appended, in order, if and only if all of them are
      short enough for the line reader. */
  lemma {:induction false} JournalRoundTrip(lines: seq<Line>)
    requires forall l | l in lines :: ValidNames(l)
    ensures ReadsBack(ScanLines(JournalText(lines)), lines) <==> forall l | l in lines :: Short(l)
  {
    hide Print, Parse, ValidNames, Short, CleanLine, ScanLines;
    var printed := seq(|lines|, i requires 0 <= i < |lines| => Print(lines[i]));
    forall i | 0 <= i < |lines| ensures '\n' !in printed[i] && (CleanLine(printed[i]) <==> Short(lines[i])) {
      CleanIsShort(lines[i]);
    }
    CleanOfUnlines(printed);
    var scan := ScanLines(JournalText(lines));
    forall i, t | 0 <= i < |lines| ensures Parse(t) == Some(lines[i]) <==> t == printed[i] {
      ParseIsPrint(lines[i], t);
    }
    if ReadsBack(scan, lines) {
      assert scan.lines == printed;
      forall l | l in lines ensures Short(l) {
        var i :| 0 <= i < |lines| && lines[i] == l;
        assert printed[i] in printed;
      }
    }
    if forall l | l in lines :: Short(l) {
      forall p | p in printed ensures CleanLine(p) {
        var i :| 0 <= i < |printed| && printed[i] == p;
        assert lines[i] in lines;
      }
    }
  }

  predicate ReadsBack(scan: Scan, lines: seq<Line>)
  {
    !scan.tooLong && |scan.lines| == |lines| && forall i | 0 <= i < |lines| :: Parse(scan.lines[i]) == Some(lines[i])
  }

  // ---- Steps on the disk ----

  /** The rows `UPDATE devices ... WHERE tag=? AND (uuid IN ... OR group_name IN ...)` touches and returns. */
  function Matched(devices: map<string, Device>, tag: string, uuids: set<string>, groups: set<string>): set<string>
  {
    set u | u in devices && devices[u].tag == tag && (u in uuids || devices[u].group in groups)
  }

  function Assign(devices: map<string, Device>, hit: set<string>, update: string): map<string, Device>
  {
    map u | u in devices :: if u in hit then devices[u].(updateName := update) else devices[u]
  }

  function Append(d: Disk, line: Line): Disk
  {
    d.(part := Some((if d.part.Some? then d.part.value else []) + [line]))
  }

  function Rollover(d: Disk): Disk
  {
    if d.part.Some? then d.(journal := d.part.value, part := None) else d
  }

  function Save(d: Disk, key: Key, rollout: Rollout): Disk
  {
    d.(files := d.files[key := rollout])
  }

  function SetUpdateName(d: Disk, tag: string, update: string, rollout: Rollout): Disk
  {
    d.(devices := Assign(d.devices, Matched(d.devices, tag, rollout.uuids, rollout.groups), update))
  }

  /** The rollout as `CommitRollout` saves it after the device rows were updated. */
  function Committed(devices: map<string, Device>, tag: string, rollout: Rollout): Rollout
  {
    rollout.(effect := Matched(devices, tag, rollout.uuids, rollout.groups), commit := true)
  }

  function Commit(d: Disk, line: Line, rollout: Rollout): Disk
  {
    Save(SetUpdateName(d, line.tag, line.key.update, rollout), line.key, Committed(d.devices, line.tag, rollout))
  }

  /** One round of the replay loop: stale, unreadable and committed rollouts are passed over. */
  function ReplayLine(d: Disk, line: Line, unreadable: set<Key>): Disk
  {
    if line.key in d.files && line.key !in unreadable && !d.files[line.key].commit
    then Commit(d, line, d.files[line.key])
    else d
  }

  function Replay(d: Disk, lines: seq<Line>, unreadable: set<Key>): Disk
    decreases |lines|
  {
    if lines == [] then d else Replay(ReplayLine(d, lines[0], unreadable), lines[1..], unreadable)
  }

  ghost predicate Settled(before: Disk, after: Disk, lines: seq<Line>, unreadable: set<Key>)
  {
    && after.journal == before.journal && after.part == before.part
    && after.files.Keys == before.files.Keys
    && after.devices.Keys == before.devices.Keys
    && (forall k | k in before.files && before.files[k].commit :: after.files[k] == before.files[k])
    && (forall k | k in before.files && k !in Keys(lines) - unreadable :: after.files[k] == before.files[k])
    && (forall k | k in before.files && k in Keys(lines) - unreadable :: after.files[k].commit)
    && (forall k | k in before.files :: Unchanged(before.files[k], after.files[k]))
  }

  /** Everything but the outcome of the commit is what the user asked for. */
  predicate Unchanged(before: Rollout, after: Rollout)
  {
    after.uuids == before.uuids && after.groups == before.groups && after.createdAt == before.createdAt
  }

  function Keys(lines: seq<Line>): set<Key>
  {
    set l | l in lines :: l.key
  }

  /** Replaying settles exactly the readable rollouts the journal names, and no other file. */
  lemma {:induction false} ReplaySettles(d: Disk, lines: seq<Line>, unreadable: set<Key>)
    ensures Settled(d, Replay(d, lines, unreadable), lines, unreadable)
    decreases |lines|
  {
    if lines != [] {
      var mid := ReplayLine(d, lines[0], unreadable);
      ReplaySettles(mid, lines[1..], unreadable);
      assert lines == [lines[0]] + lines[1..];
      assert Keys(lines) == {lines[0].key} + Keys(lines[1..]);
    }
  }

  lemma {:induction false} ReplayAppend(d: Disk, lines: seq<Line>, line: Line, unreadable: set<Key>)
    ensures Replay(d, lines + [line], unreadable) == ReplayLine(Replay(d, lines, unreadable), line, unreadable)
    decreases |lines|
  {
    if lines == [] {
      assert lines + [line] == [line];
      assert Replay(d, [line], unreadable) == Replay(ReplayLine(d, line, unreadable), [], unreadable);
    } else {
      assert (lines + [line])[1..] == lines[1..] + [line];
      ReplayAppend(ReplayLine(d, lines[0], unreadable), lines[1..], line, unreadable);
    }
  }

  /** Some record names a rollout file that exists and cannot be read. */
  predicate Blocked(lines: seq<Line>, stuck: set<Key>)
  {
    exists l | l in lines :: l.key in stuck
  }

  lemma BlockedAppend(lines: seq<Line>, line: Line, stuck: set<Key>)
    ensures Blocked(lines + [line], stuck) <==> Blocked(lines, stuck) || line.key in stuck
  {
  }

  lemma StepAt(d: Disk, lines: seq<Line>, i: nat, unreadable: set<Key>, stuck: set<Key>)
    requires i < |lines|
    ensures Replay(d, lines[..i + 1], unreadable) == ReplayLine(Replay(d, lines[..i], unreadable), lines[i], unreadable)
    ensures Blocked(lines[..i + 1], stuck) <==> Blocked(lines[..i], stuck) || lines[i].key in stuck
  {
    assert lines[..i + 1] == lines[..i] + [lines[i]];
    ReplayAppend(d, lines[..i], lines[i], unreadable);
    BlockedAppend(lines[..i], lines[i], stuck);
  }

  // ---- The same steps, performed ----

  class Store {
    var journal: string
    var part: Option<string>
    var files: map<Key, Rollout>
    var devices: map<string, Device>
    ghost var journalLines: seq<Line>
    ghost var partLines: seq<Line>

    ghost predicate Valid()
      reads this
    {
      && journal == JournalText(journalLines) && (forall l | l in journalLines :: ValidLine(l))
      && (part.Some? ==> part.value == JournalText(partLines) && forall l | l in partLines :: ValidLine(l))
    }

    ghost function View(): Disk
      reads this
    {
      Disk(journalLines, if part.Some? then Some(partLines) else None, files, devices)
    }

    constructor (devices: map<string, Device>)
      ensures Valid() && View() == Disk([], None, map[], devices)
    {
      journal, part, files, this.devices := "", None, map[], devices;
      journalLines, partLines := [], [];
    }

    method AppendJournal(line: Line)
      requires Valid() && ValidLine(line)
      modifies this`part, this`partLines
      ensures Valid() && View() == Append(old(View()), line)
      ensures part == Some((if old(part).Some? then old(part).value else "")
                           + (line.tag + "|" + line.key.update + "|" + line.key.name) + "\n")
    {
      PrintShape(line);
      var content := if part.Some? then part.value else "";
      ghost var lines := if part.Some? then partLines else [];
      TextAppend(lines, line);
      part := Some(content + Print(line) + ['\n']);
      partLines := lines + [line];
    }

    method RolloverJournal()
      requires Valid()
      modifies this`part, this`partLines, this`journal, this`journalLines
      ensures Valid() && View() == Rollover(old(View()))
      ensures part == None && journal == if old(part).Some? then old(part).value else old(journal)
    {
      if part.Some? {
        journal, journalLines := part.value, partLines;
        part, partLines := None, [];
      }
    }

    method SaveRollout(key: Key, rollout: Rollout)
      requires Valid()
      modifies this`files
      ensures Valid() && View() == Save(old(View()), key, rollout)
    {
      files := files[key := rollout];
    }

    /** Handler side: the record is journalled before the rollout file exists. */
    method CreateRollout(line: Line, rollout: Rollout)
      requires Valid() && ValidLine(line)
      modifies this`part, this`partLines, this`files
      ensures Valid() && View() == Save(Append(old(View()), line), line.key, rollout)
      ensures files == old(files)[line.key := rollout]
    {
      AppendJournal(line);
      SaveRollout(line.key, rollout);
    }

    /** Exactly the devices of the tag that are named or in a named group get the update, and they are the effect. */
    method CommitRollout(line: Line, rollout: Rollout)
      requires Valid()
      modifies this`devices, this`files
      ensures Valid() && View() == Commit(old(View()), line, rollout)
      ensures devices.Keys == old(devices).Keys
      ensures forall u | u in old(devices) ::
                var d := old(devices)[u];
                devices[u] == if d.tag == line.tag && (u in rollout.uuids || d.group in rollout.groups)
                              then Device(d.tag, d.group, line.key.update) else d
      ensures files.Keys == old(files).Keys + {line.key}
      ensures forall k | k in old(files) && k != line.key :: files[k] == old(files)[k]
      ensures files[line.key] ==
                Rollout(rollout.createdAt, rollout.uuids, rollout.groups,
                        set u | u in old(devices) && old(devices)[u].tag == line.tag
                                && (u in rollout.uuids || old(devices)[u].group in rollout.groups),
                        true)
    {
      var hit := Matched(devices, line.tag, rollout.uuids, rollout.groups);
      devices := Assign(devices, hit, line.key.update);
      SaveRollout(line.key, rollout.(effect := hit, commit := true));
    }

    /** The body of the replay loop for one journal record. */
    method ReplayOne(line: Line, unreadable: set<Key>) returns (success: bool)
      requires Valid()
      modifies this`devices, this`files
      ensures Valid() && View() == ReplayLine(old(View()), line, unreadable)
      ensures success <==> line.key !in unreadable * old(files).Keys
      ensures files.Keys == old(files).Keys
      ensures forall k | k in old(files) && (k != line.key || k in unreadable || old(files)[k].commit) ::
                files[k] == old(files)[k]
      ensures line.key in old(files) && line.key !in unreadable ==> files[line.key].commit
    {
      success := true;
      if line.key in files {
        if line.key in unreadable {
          success := false;
        } else if !files[line.key].commit {
          CommitRollout(line, files[line.key]);
        }
      }
    }

    /** Replays the journal text. It reports success exactly when no named rollout file was unreadable. */
    method ProcessJournal(unreadable: set<Key>) returns (success: bool)
      requires Valid()
      modifies this`devices, this`files
      ensures Valid() && View() == Replay(old(View()), journalLines, unreadable)
      ensures success <==> !Blocked(journalLines, unreadable * old(files).Keys)
      ensures success <==> forall l | l in journalLines :: l.key !in unreadable || l.key !in old(files)
      ensures forall k | k in old(files) :: k in files
                && (files[k].commit
                    <==> (old(files)[k].commit || (k !in unreadable && exists l :: l in journalLines && l.key == k)))
    {
      ReplaySettles(View(), journalLines, unreadable);
      success := true;
      JournalRoundTrip(journalLines);
      var scan := ScanLines(journal);
      ghost var start, stuck, lines := View(), unreadable * files.Keys, journalLines;
      for i := 0 to |scan.lines|
        invariant Valid() && files.Keys == old(files).Keys
        invariant View() == Replay(start, lines[..i], unreadable)
        invariant success <==> !Blocked(lines[..i], stuck)
      {
        assert Parse(scan.lines[i]) == Some(lines[i]);
        var line := Parse(scan.lines[i]).value;
        StepAt(start, lines, i, unreadable, stuck);
        var ok := ReplayOne(line, unreadable);
        success := success && ok;
      }
      assert lines[..|scan.lines|] == lines;
    }

    /** One round of the watchdog loop: the very first round never rolls the journal over. */
    method WatchdogRound(firstRun: bool, unreadable: set<Key>)
      requires Valid()
      modifies this
      ensures Valid()
      ensures var replayed := Replay(old(View()), old(journalLines), unreadable);
              View() == if firstRun || Blocked(old(journalLines), unreadable * old(files).Keys)
                        then replayed else Rollover(replayed)
      ensures if !firstRun && old(part).Some?
                 && forall l | l in old(journalLines) :: l.key !in unreadable || l.key !in old(files)
              then journal == old(part).value && part == None
              else journal == old(journal) && part == old(part)
    {
      var processed := ProcessJournal(unreadable);
      if !firstRun && processed {
        RolloverJournal();
      }
    }
  }
}
