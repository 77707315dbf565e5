/** PUT handlers, commit goroutines, the watchdog and crashes, interleaved step by step over the disk of
    `RolloutStore`. An append opens the part file in one step and writes the record in another, so a rollover may
    come between them: the open descriptor then points at the file that has become the journal. */
module RolloutSteps {
  import opened TextLines
  import opened RolloutStore

  datatype Handler =
    | Checked(line: Line, rollout: Rollout)                            // no rollout of this name existed
    | Opened(line: Line, rollout: Rollout, inode: nat, since: nat)     // part file open, record not written
    | Appended(line: Line, rollout: Rollout, since: nat)               // record written, rollout file not
    | Written(line: Line, rollout: Rollout)                            // the commit goroutine starts here
    | Matching(line: Line, rollout: Rollout)                           // device rows updated, outcome not saved

  datatype Daemon =
    | Reading(next: nat, success: bool)
    | Found(next: nat, success: bool, rollout: Rollout)                // uncommitted rollout read
    | Updated(next: nat, success: bool, rollout: Rollout)              // device rows updated for it
    | Rolling
    | Waiting

  /** A device update as it happened; kept to state what an effect must equal. */
  datatype Update = Update(line: Line, rollout: Rollout, devices: map<string, Device>)

  /** `gen` names the inode the current part file has or will get; `epoch` counts the watchdog's waits.
      `origin` (the tag of the PUT that last wrote a file) and `history` only serve the statements. */
  datatype Sys = Sys(
    disk: Disk, gen: nat, epoch: nat, handlers: map<nat, Handler>, daemon: Daemon, firstRun: bool,
    origin: map<Key, string>, history: seq<Update>)

  datatype Event =
    | PutCheck(id: nat, line: Line, rollout: Rollout)
    | PutOpen(id: nat)
    | PutAppend(id: nat)
    | PutWrite(id: nat)
    | PutMatch(id: nat)
    | PutSave(id: nat)
    | Abort(id: nat)              // any failure of a handler or of its goroutine
    | ReadLine                    // GetRollout of the next record, and what follows from it without writing
    | ReadFails                   // GetRollout fails for another reason than a missing file
    | JournalFails                // reading the journal itself fails
    | CommitMatch
    | CommitSave
    | CommitFails                 // either step of the daemon's commit fails
    | EndPass
    | RollOver
    | RollOverFails
    | EndWait
    | RemoveFile(key: Key)        // deletion of an update takes its rollout files along
    | ChangeDevice(uuid: string, device: Device)
    | Crash

  predicate InSection(h: Handler) { h.Opened? || h.Appended? }

  predicate Enabled(s: Sys, e: Event)
  {
    match e
    case PutCheck(id, line, _) => id !in s.handlers && line.key !in s.disk.files
    case PutOpen(id) => id in s.handlers && s.handlers[id].Checked?
    case PutAppend(id) => id in s.handlers && s.handlers[id].Opened?
    case PutWrite(id) => id in s.handlers && s.handlers[id].Appended?
    case PutMatch(id) => id in s.handlers && s.handlers[id].Written?
    case PutSave(id) => id in s.handlers && s.handlers[id].Matching?
    case Abort(id) => id in s.handlers
    case ReadLine => s.daemon.Reading? && s.daemon.next < |s.disk.journal|
    case ReadFails => s.daemon.Reading? && s.daemon.next < |s.disk.journal|
    case JournalFails => s.daemon.Reading?
    case CommitMatch => s.daemon.Found? && s.daemon.next < |s.disk.journal|
    case CommitSave => s.daemon.Updated? && s.daemon.next < |s.disk.journal|
    case CommitFails => s.daemon.Found? || s.daemon.Updated?
    case EndPass => s.daemon.Reading? && s.daemon.next >= |s.disk.journal|
    case RollOver => s.daemon.Rolling?
    case RollOverFails => s.daemon.Rolling?
    case EndWait => s.daemon.Waiting?
    case RemoveFile(_) => true
    case ChangeDevice(_, _) => true
    case Crash => true
  }

  /** Where a write through a descriptor lands: the part file, the journal it became, or an unlinked file. */
  function WriteTo(s: Sys, inode: nat, line: Line): Disk
  {
    if inode == s.gen then Append(s.disk, line)
    else if inode + 1 == s.gen then s.disk.(journal := s.disk.journal + [line])
    else s.disk
  }

  function StartWait(s: Sys): Sys
  {
    s.(daemon := Waiting, epoch := s.epoch + 1)
  }

  function RolledOver(s: Sys): Sys
  {
    s.(disk := Rollover(s.disk), gen := if s.disk.part.Some? then s.gen + 1 else s.gen)
  }

  function Log(s: Sys, line: Line, rollout: Rollout): seq<Update>
  {
    s.history + [Update(line, rollout, s.disk.devices)]
  }

  predicate IsHandlerEvent(e: Event)
  {
    e.PutCheck? || e.PutOpen? || e.PutAppend? || e.PutWrite? || e.PutMatch? || e.PutSave? || e.Abort?
  }

  function HandlerStep(s: Sys, e: Event): Sys
    requires Enabled(s, e)
    requires IsHandlerEvent(e)
  {
    match e
    case PutCheck(id, line, rollout) => s.(handlers := s.handlers[id := Checked(line, rollout)])
    case PutOpen(id) =>
      var h := s.handlers[id];
      s.(handlers := s.handlers[id := Opened(h.line, h.rollout, s.gen, s.epoch)],
         disk := s.disk.(part := if s.disk.part.Some? then s.disk.part else Some([])))
    case PutAppend(id) =>
      var h := s.handlers[id];
      s.(handlers := s.handlers[id := Appended(h.line, h.rollout, h.since)], disk := WriteTo(s, h.inode, h.line))
    case PutWrite(id) =>
      var h := s.handlers[id];
      s.(handlers := s.handlers[id := Written(h.line, h.rollout)],
         disk := Save(s.disk, h.line.key, h.rollout), origin := s.origin[h.line.key := h.line.tag])
    case PutMatch(id) =>
      var h := s.handlers[id];
      s.(handlers := s.handlers[id := Matching(h.line, Committed(s.disk.devices, h.line.tag, h.rollout))],
         disk := SetUpdateName(s.disk, h.line.tag, h.line.key.update, h.rollout),
         history := Log(s, h.line, h.rollout))
    case PutSave(id) =>
      var h := s.handlers[id];
      s.(handlers := s.handlers - {id}, disk := Save(s.disk, h.line.key, h.rollout))
    case Abort(id) => s.(handlers := s.handlers - {id})
  }

  function DaemonStep(s: Sys, e: Event): Sys
    requires Enabled(s, e)
    requires e.ReadLine? || e.ReadFails? || e.JournalFails? || e.CommitMatch? || e.CommitSave? || e.CommitFails?
          || e.EndPass? || e.RollOver? || e.RollOverFails? || e.EndWait?
  {
    match e
    case ReadLine =>
      var key := s.disk.journal[s.daemon.next].key;
      if key in s.disk.files && !s.disk.files[key].commit
      then s.(daemon := Found(s.daemon.next, s.daemon.success, s.disk.files[key]))
      else s.(daemon := Reading(s.daemon.next + 1, s.daemon.success))
    case ReadFails => s.(daemon := Reading(s.daemon.next + 1, false))
    case JournalFails => StartWait(s).(firstRun := false)
    case CommitMatch =>
      var line := s.disk.journal[s.daemon.next];
      s.(daemon := Updated(s.daemon.next, s.daemon.success, Committed(s.disk.devices, line.tag, s.daemon.rollout)),
         disk := SetUpdateName(s.disk, line.tag, line.key.update, s.daemon.rollout),
         history := Log(s, line, s.daemon.rollout))
    case CommitSave =>
      s.(daemon := Reading(s.daemon.next + 1, s.daemon.success),
         disk := Save(s.disk, s.disk.journal[s.daemon.next].key, s.daemon.rollout))
    case CommitFails => s.(daemon := Reading(s.daemon.next + 1, false))
    case EndPass =>
      if s.firstRun then StartWait(s).(firstRun := false)
      else if s.daemon.success then s.(daemon := Rolling)
      else StartWait(s)
    case RollOver => StartWait(RolledOver(s))
    case RollOverFails => StartWait(s)
    case EndWait => s.(daemon := Reading(0, true))
  }

  function Step(s: Sys, e: Event): Sys
    requires Enabled(s, e)
  {
    match e
    case RemoveFile(key) => s.(disk := s.disk.(files := s.disk.files - {key}))
    case ChangeDevice(uuid, device) => s.(disk := s.disk.(devices := s.disk.devices[uuid := device]))
    case Crash => s.(handlers := map[], daemon := Reading(0, true), firstRun := true)
    case PutCheck(_, _, _) => HandlerStep(s, e)
    case PutOpen(_) => HandlerStep(s, e)
    case PutAppend(_) => HandlerStep(s, e)
    case PutWrite(_) => HandlerStep(s, e)
    case PutMatch(_) => HandlerStep(s, e)
    case PutSave(_) => HandlerStep(s, e)
    case Abort(_) => HandlerStep(s, e)
    case _ => DaemonStep(s, e)
  }

  ghost predicate Run(s: Sys, es: seq<Event>)
    decreases |es|
  {
    es == [] || (Enabled(s, es[0]) && Run(Step(s, es[0]), es[1..]))
  }

  function Final(s: Sys, es: seq<Event>): Sys
    requires Run(s, es)
    decreases |es|
  {
    if es == [] then s else Final(Step(s, es[0]), es[1..])
  }

  /** The code's one timing assumption: every handler that was between opening the part file and writing its rollout
      file when a wait began has left that stretch when the wait ends. */
  predicate Timely(s: Sys)
  {
    forall id | id in s.handlers && InSection(s.handlers[id]) :: s.handlers[id].since == s.epoch
  }

  ghost predicate TimelyRun(s: Sys, es: seq<Event>)
    requires Run(s, es)
    decreases |es|
  {
    es == [] || ((es[0].EndWait? ==> Timely(s)) && TimelyRun(Step(s, es[0]), es[1..]))
  }

  /** PUT bodies that leave `committed` unset. */
  predicate HonestRun(es: seq<Event>)
  {
    forall e | e in es && e.PutCheck? :: !e.rollout.commit
  }

  function Boot(devices: map<string, Device>): Sys
  {
    Sys(Disk([], None, map[], devices), 0, 0, map[], Reading(0, true), true, map[], [])
  }
}
