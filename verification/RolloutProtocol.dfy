/** What the interleaved steps of rollouts keep: no rollout is lost, committed effects are exact, and quiet passes of
    the watchdog commit everything. */
module RolloutProtocol {
  import opened TextLines
  import opened RolloutStore
  import opened RolloutSteps

  // ---- What every timely run keeps ----

  function PartLines(d: Disk): seq<Line> { if d.part.Some? then d.part.value else [] }

  predicate Recorded(s: Sys, line: Line) { line in s.disk.journal || line in PartLines(s.disk) }

  /** The record of the PUT that last wrote this file. */
  function Record(s: Sys, k: Key): Line
    requires k in s.origin
  {
    Line(s.origin[k], k)
  }

  predicate Lost(s: Sys, k: Key)
  {
    k in s.disk.files && !s.disk.files[k].commit && !(k in s.origin && Recorded(s, Record(s, k)))
  }

  /** No rollout file waits for a commit that no replay would ever reach. */
  ghost predicate NoneLost(s: Sys) { forall k :: !Lost(s, k) }

  ghost predicate HandlerInv(s: Sys, h: Handler)
  {
    && (InSection(h) ==> h.since <= s.epoch && (s.daemon.Waiting? || h.since == s.epoch))
    && (h.Opened? ==> if h.inode == s.gen then s.disk.part.Some? else h.inode + 1 == s.gen && h.since < s.epoch)
    && (h.Appended? ==> Recorded(s, h.line) && (h.since == s.epoch ==> h.line in PartLines(s.disk)))
  }

  /** Records at position `from` or later in the journal. */
  predicate Ahead(s: Sys, line: Line, from: nat)
  {
    exists j :: from <= j < |s.disk.journal| && s.disk.journal[j] == line
  }

  /** Every file still waiting for a commit is named by the part file, or by a record not replayed yet. */
  ghost predicate Remaining(s: Sys, from: nat)
  {
    forall k | k in s.disk.files && !s.disk.files[k].commit ::
      k in s.origin && (Record(s, k) in PartLines(s.disk) || Ahead(s, Record(s, k), from))
  }

  /** As long as a pass has met no failure, it leaves nothing uncommitted behind its back. */
  ghost predicate PassInv(s: Sys)
  {
    match s.daemon
    case Reading(next, success) => next <= |s.disk.journal| && (success ==> Remaining(s, next))
    case Found(next, success, _) => next < |s.disk.journal| && (success ==> Remaining(s, next))
    case Updated(next, success, _) => next < |s.disk.journal| && (success ==> Remaining(s, next))
    case Rolling => Remaining(s, |s.disk.journal|)
    case Waiting => true
  }

  ghost predicate HandlersInv(s: Sys)
  {
    forall id | id in s.handlers :: HandlerInv(s, s.handlers[id])
  }

  ghost predicate Inv(s: Sys)
  {
    && HandlersInv(s)
    && NoneLost(s)
    && PassInv(s)
    && (s.daemon.Waiting? || s.daemon.Rolling? ==> !s.firstRun)
    && (s.daemon.Updated? ==> s.daemon.rollout.commit)
    && (forall id | id in s.handlers && s.handlers[id].Matching? :: s.handlers[id].rollout.commit)
  }

  lemma HandlerStepKeepsInv(s: Sys, e: Event)
    requires Enabled(s, e) && Inv(s)
    requires IsHandlerEvent(e)
    ensures Inv(Step(s, e))
  {
    hide Step, Inv;
    if e.PutOpen? || e.PutAppend? {
      RecordStepKeepsInv(s, e);
    } else if e.PutWrite? || e.PutSave? {
      FileStepKeepsInv(s, e);
    } else {
      OtherStepKeepsInv(s, e);
    }
  }

  lemma RecordStepKeepsInv(s: Sys, e: Event)
    requires Enabled(s, e) && Inv(s)
    requires e.PutOpen? || e.PutAppend?
    ensures Inv(Step(s, e))
  {
    var t := Step(s, e);
    forall k ensures !Lost(t, k) {
      assert !Lost(s, k);
    }
  }

  lemma FileStepKeepsInv(s: Sys, e: Event)
    requires Enabled(s, e) && Inv(s)
    requires e.PutWrite? || e.PutSave?
    ensures Inv(Step(s, e))
  {
    var t := Step(s, e);
    forall k ensures !Lost(t, k) {
      assert !Lost(s, k);
    }
  }

  lemma OtherStepKeepsInv(s: Sys, e: Event)
    requires Enabled(s, e) && Inv(s)
    requires e.PutCheck? || e.PutMatch? || e.Abort?
    ensures Inv(Step(s, e))
  {
    hide Matched, Assign;
    var t := Step(s, e);
    forall k ensures !Lost(t, k) {
      assert !Lost(s, k);
    }
  }

  /** A fresh pass has the whole journal ahead of it. */
  lemma RemainingAtStart(s: Sys)
    requires NoneLost(s)
    ensures Remaining(s, 0)
  {
    forall k | k in s.disk.files && !s.disk.files[k].commit
      ensures k in s.origin && (Record(s, k) in PartLines(s.disk) || Ahead(s, Record(s, k), 0))
    {
      assert !Lost(s, k);
    }
  }

  /** Moving past a record is harmless once the file it names is gone or committed. */
  lemma RemainingMoves(s: Sys, from: nat)
    requires Remaining(s, from) && from < |s.disk.journal|
    requires var k := s.disk.journal[from].key; k in s.disk.files ==> s.disk.files[k].commit
    ensures Remaining(s, from + 1)
  {
  }

  lemma DaemonKeepsHandlers(s: Sys, e: Event)
    requires Enabled(s, e) && Inv(s)
    requires e.EndWait? ==> Timely(s)
    requires !IsHandlerEvent(e)
    ensures HandlersInv(Step(s, e))
  {
  }

  lemma DaemonKeepsRecords(s: Sys, e: Event)
    requires Enabled(s, e) && Inv(s)
    requires e.EndWait? ==> Timely(s)
    requires !IsHandlerEvent(e)
    ensures NoneLost(Step(s, e))
  {
    var t := Step(s, e);
    forall k ensures !Lost(t, k) {
      assert !Lost(s, k);
    }
  }

  lemma DaemonKeepsPass(s: Sys, e: Event)
    requires Enabled(s, e) && Inv(s)
    requires e.EndWait? ==> Timely(s)
    requires !IsHandlerEvent(e)
    ensures PassInv(Step(s, e))
  {
    hide HandlersInv, NoneLost, Matched, Assign;
    var t := Step(s, e);
    match e {
      case EndWait => DaemonKeepsRecords(s, e); RemainingAtStart(t);
      case Crash => DaemonKeepsRecords(s, e); RemainingAtStart(t);
      case ReadLine => if t.daemon.Reading? && t.daemon.success { RemainingMoves(s, s.daemon.next); }
      case CommitSave =>
        if t.daemon.success {
          assert Remaining(t, s.daemon.next);
          RemainingMoves(t, s.daemon.next);
        }
      case _ =>
    }
  }

  lemma StepKeepsInv(s: Sys, e: Event)
    requires Enabled(s, e) && Inv(s)
    requires e.EndWait? ==> Timely(s)
    ensures Inv(Step(s, e))
  {
    if IsHandlerEvent(e) {
      HandlerStepKeepsInv(s, e);
    } else {
      DaemonKeepsHandlers(s, e);
      DaemonKeepsRecords(s, e);
      DaemonKeepsPass(s, e);
    }
  }

  lemma {:induction false} RunKeepsInv(s: Sys, es: seq<Event>)
    requires Inv(s) && Run(s, es) && TimelyRun(s, es)
    ensures Inv(Final(s, es))
    decreases |es|
  {
    if es != [] {
      StepKeepsInv(s, es[0]);
      RunKeepsInv(Step(s, es[0]), es[1..]);
    }
  }

  /** Main safety result. Whatever handlers, racing PUTs of one name, failures, deletions and crashes a timely run
      interleaves, no rollout is left uncommitted without its record, and a rollover about to drop the journal finds
      every such record in the part file that replaces it. */
  lemma NoRolloutIsLost(devices: map<string, Device>, es: seq<Event>)
    requires Run(Boot(devices), es) && TimelyRun(Boot(devices), es)
    ensures var s := Final(Boot(devices), es);
            && (forall k | k in s.disk.files && !s.disk.files[k].commit :: k in s.origin && Recorded(s, Record(s, k)))
            && (s.daemon.Rolling? ==> forall k | k in s.disk.files && !s.disk.files[k].commit ::
                 k in s.origin && Record(s, k) in PartLines(s.disk))
  {
    assert Inv(Boot(devices));
    RunKeepsInv(Boot(devices), es);
    var s := Final(Boot(devices), es);
    forall k | k in s.disk.files && !s.disk.files[k].commit
      ensures k in s.origin && Recorded(s, Record(s, k))
    {
      assert !Lost(s, k);
    }
  }

  // ---- Effects ----

  /** Some device update for this very rollout returned exactly these uuids. */
  ghost predicate Explained(history: seq<Update>, k: Key, r: Rollout)
  {
    exists u | u in history :: Explains(u, k, r)
  }

  predicate Explains(u: Update, k: Key, r: Rollout)
  {
    && u.line.key == k && u.rollout.uuids == r.uuids && u.rollout.groups == r.groups
    && r.effect == set d | d in u.devices && u.devices[d].tag == u.line.tag
                           && (d in u.rollout.uuids || u.devices[d].group in u.rollout.groups)
  }

  /** What the device update `u` does to the rows: those of its tag that are named or in a named group get the
      update. */
  predicate Performed(u: Update, after: map<string, Device>)
  {
    && after.Keys == u.devices.Keys
    && forall d | d in u.devices ::
         after[d] == if u.devices[d].tag == u.line.tag &&
             (d in u.rollout.uuids || u.devices[d].group in u.rollout.groups)
                     then Device(u.devices[d].tag, u.devices[d].group, u.line.key.update) else u.devices[d]
  }

  /** Each step of any run makes at most one device update, on the rows as they are, and only for a handler's rollout or
      one the watchdog read; no other step but a change of a device from outside touches any row. */
  lemma StepTouchesExactly(s: Sys, e: Event)
    requires Enabled(s, e)
    ensures var t := Step(s, e);
            if e.PutMatch? || e.CommitMatch? then
              var line := if e.PutMatch? then s.handlers[e.id].line else s.disk.journal[s.daemon.next];
              var rollout := if e.PutMatch? then s.handlers[e.id].rollout else s.daemon.rollout;
              var u := Update(line, rollout, s.disk.devices);
              t.history == s.history + [u] && Performed(u, t.disk.devices)
            else t.history == s.history && (!e.ChangeDevice? ==> t.disk.devices == s.disk.devices)
  {
  }

  lemma {:induction false} HistoryGrows(s: Sys, es: seq<Event>)
    requires Run(s, es)
    ensures s.history <= Final(s, es).history
    decreases |es|
  {
    if es != [] {
      StepTouchesExactly(s, es[0]);
      hide Step, Enabled;
      HistoryGrows(Step(s, es[0]), es[1..]);
    }
  }

  /** Every device update of every run was performed by one step of it, on the rows as they were just then. */
  lemma {:induction false} EachUpdateIsPerformed(s: Sys, es: seq<Event>, j: nat) returns (i: nat, before: Sys)
    requires Run(s, es) && |s.history| <= j < |Final(s, es).history|
    ensures i < |es| && Run(s, es[..i]) && before == Final(s, es[..i]) && Enabled(before, es[i])
    ensures var u := Final(s, es).history[j];
            u.devices == before.disk.devices && Performed(u, Step(before, es[i]).disk.devices)
    decreases |es|
  {
    var t, rest := Step(s, es[0]), es[1..];
    StepTouchesExactly(s, es[0]);
    HistoryGrows(t, rest);
    hide Step, Enabled, Performed;
    if j < |t.history| {
      i, before := 0, s;
      assert es[..0] == [] && Final(s, es).history[j] == t.history[j];
    } else {
      i, before := EachUpdateIsPerformed(t, rest, j);
      assert es[..i + 1][0] == es[0] && es[..i + 1][1..] == rest[..i];
      i := i + 1;
    }
  }

  ghost predicate EffectsExact(s: Sys)
  {
    forall k | k in s.disk.files && s.disk.files[k].commit :: Explained(s.history, k, s.disk.files[k])
  }

  ghost predicate EffectInv(s: Sys)
  {
    && EffectsExact(s)
    && (forall id | id in s.handlers ::
         var h := s.handlers[id];
         if h.Matching? then Explained(s.history, h.line.key, h.rollout) else !h.rollout.commit)
    && (s.daemon.Found? || s.daemon.Updated? ==> s.daemon.next < |s.disk.journal|)
    && (s.daemon.Updated? ==> Explained(s.history, s.disk.journal[s.daemon.next].key, s.daemon.rollout))
  }

  lemma ExplainedNow(s: Sys, line: Line, r: Rollout)
    ensures Explained(Log(s, line, r), line.key, Committed(s.disk.devices, line.tag, r))
    ensures forall k, x | Explained(s.history, k, x) :: Explained(Log(s, line, r), k, x)
  {
    var log := Log(s, line, r);
    assert Explains(log[|s.history|], line.key, Committed(s.disk.devices, line.tag, r));
    forall k, x | Explained(s.history, k, x) ensures Explained(log, k, x) {
      var u :| u in s.history && Explains(u, k, x);
      assert u in log;
    }
  }

  lemma EffectHandlerStep(s: Sys, e: Event)
    requires Enabled(s, e) && EffectInv(s) && IsHandlerEvent(e)
    requires e.PutCheck? ==> !e.rollout.commit
    ensures EffectInv(HandlerStep(s, e))
  {
    hide Explained, Matched, Assign;
    if e.PutMatch? {
      ExplainedNow(s, s.handlers[e.id].line, s.handlers[e.id].rollout);
    }
  }

  lemma EffectOtherStep(s: Sys, e: Event)
    requires Enabled(s, e) && EffectInv(s) && !IsHandlerEvent(e)
    ensures EffectInv(Step(s, e))
  {
    hide Explained, Matched, Assign;
    if e.CommitMatch? {
      ExplainedNow(s, s.disk.journal[s.daemon.next], s.daemon.rollout);
    }
  }

  lemma EffectStep(s: Sys, e: Event)
    requires Enabled(s, e) && EffectInv(s)
    requires e.PutCheck? ==> !e.rollout.commit
    ensures EffectInv(Step(s, e))
  {
    hide EffectInv, HandlerStep;
    if IsHandlerEvent(e) { EffectHandlerStep(s, e); } else { EffectOtherStep(s, e); }
  }

  lemma {:induction false} EffectRun(s: Sys, es: seq<Event>)
    requires Run(s, es) && HonestRun(es) && EffectInv(s)
    ensures EffectInv(Final(s, es))
    decreases |es|
  {
    if es != [] {
      assert es[0] in es;
      EffectStep(s, es[0]);
      assert forall e | e in es[1..] :: e in es;
      EffectRun(Step(s, es[0]), es[1..]);
    }
  }

  /** In every run, timely or not, each committed file carries the uuids some device update for it returned,
      provided no PUT body sets `committed` itself. */
  lemma CommittedEffectsAreExact(devices: map<string, Device>, es: seq<Event>)
    requires Run(Boot(devices), es) && HonestRun(es)
    ensures EffectsExact(Final(Boot(devices), es))
  {
    EffectRun(Boot(devices), es);
  }

  function PutUpToWrite(line: Line, r: Rollout): seq<Event>
  {
    [PutCheck(0, line, r), PutOpen(0), PutAppend(0), PutWrite(0)]
  }

  /** The system right after one PUT has written its file on a fresh server. */
  function AfterPut(devices: map<string, Device>, line: Line, r: Rollout): Sys
  {
    Sys(Disk([], Some([line]), map[line.key := r], devices), 0, 0, map[0 := Written(line, r)],
        Reading(0, true), true, map[line.key := line.tag], [])
  }

  /** A run without the end of a wait keeps the timing assumption. */
  lemma {:induction false} NoWaitIsTimely(s: Sys, es: seq<Event>)
    requires Run(s, es) && forall e | e in es :: !e.EndWait?
    ensures TimelyRun(s, es)
    decreases |es|
  {
    hide Step, Enabled, Timely;
    if es != [] {
      assert es[0] in es && forall e | e in es[1..] :: e in es;
      NoWaitIsTimely(Step(s, es[0]), es[1..]);
    }
  }

  lemma PutRuns(devices: map<string, Device>, line: Line, r: Rollout)
    ensures var es := PutUpToWrite(line, r);
            && Run(Boot(devices), es) && TimelyRun(Boot(devices), es)
            && Final(Boot(devices), es) == AfterPut(devices, line, r)
  {
    hide Run, Final, TimelyRun, Timely;
    var s0, reading := Boot(devices), Reading(0, true);
    var empty, written := Disk([], Some([]), map[], devices), Disk([], Some([line]), map[], devices);
    var es := NothingYet(s0);
    var s1 := Fresh(s0.disk, 0, 0, map[0 := Checked(line, r)], reading, true);
    es := Then(s0, es, s0, PutCheck(0, line, r), s1);
    var s2 := Fresh(empty, 0, 0, map[0 := Opened(line, r, 0, 0)], reading, true);
    es := Then(s0, es, s1, PutOpen(0), s2);
    assert [] + [line] == [line];
    var s3 := Fresh(written, 0, 0, map[0 := Appended(line, r, 0)], reading, true);
    es := Then(s0, es, s2, PutAppend(0), s3);
    es := Then(s0, es, s3, PutWrite(0), AfterPut(devices, line, r));
    assert es == PutUpToWrite(line, r);
    NoWaitIsTimely(s0, es);
  }

  /** The PUT body's own `committed` flag decides, in any state and for any name no device update was made for: set, the
      file counts as committed although no device was updated, and no replay will look at it again. */
  lemma PresetCommitBreaksEffects(s: Sys, id: nat)
    requires Enabled(s, PutWrite(id)) && EffectsExact(s)
    requires forall u | u in s.history :: u.line.key != s.handlers[id].line.key
    ensures EffectsExact(Step(s, PutWrite(id))) <==> !s.handlers[id].rollout.commit
  {
    var t, key, r := Step(s, PutWrite(id)), s.handlers[id].line.key, s.handlers[id].rollout;
    assert t.disk.files == s.disk.files[key := r] && t.history == s.history;
    hide Step, Enabled, Matched;
    assert !Explained(t.history, key, r);
    if !r.commit {
      forall k | k in t.disk.files && t.disk.files[k].commit ensures Explained(t.history, k, t.disk.files[k]) {
        assert k != key && k in s.disk.files && s.disk.files[k] == t.disk.files[k];
      }
    } else {
      assert key in t.disk.files && t.disk.files[key].commit;
    }
  }

  // ---- Progress ----

  predicate Shape(s: Sys)
  {
    match s.daemon
    case Reading(next, _) => next <= |s.disk.journal|
    case Found(next, _, _) => next < |s.disk.journal|
    case Updated(next, _, _) => next < |s.disk.journal|
    case _ => true
  }

  /** What the daemon does next when nothing fails. */
  function NextEvent(s: Sys): (e: Event)
    requires Shape(s)
    ensures Enabled(s, e)
  {
    match s.daemon
    case Reading(next, _) => if next < |s.disk.journal| then ReadLine else EndPass
    case Found(_, _, _) => CommitMatch
    case Updated(_, _, _) => CommitSave
    case Rolling => RollOver
    case Waiting => EndWait
  }

  /** Daemon steps left in the current pass. */
  function StepsLeft(s: Sys): nat
    requires Shape(s)
  {
    match s.daemon
    case Reading(next, _) => 3 * (|s.disk.journal| - next) + 2
    case Found(next, _, _) => 3 * (|s.disk.journal| - next) + 1
    case Updated(next, _, _) => 3 * (|s.disk.journal| - next)
    case Rolling => 1
    case Waiting => 0
  }

  /** The daemon alone, without failures, until it waits again. */
  function FinishPass(s: Sys): Sys
    requires Shape(s)
    decreases StepsLeft(s)
  {
    if s.daemon.Waiting? then s else FinishPass(Step(s, NextEvent(s)))
  }

  /** One pass: from a wait through the next one, or from the middle of a pass to its end. */
  function Pass(s: Sys): (t: Sys)
    requires Shape(s)
  {
    FinishPass(Step(s, NextEvent(s)))
  }

  predicate Succeeding(d: Daemon)
  {
    match d
    case Reading(_, success) => success
    case Found(_, success, _) => success
    case Updated(_, success, _) => success
    case Rolling => true
    case Waiting => false
  }

  predicate AllCommitted(s: Sys)
  {
    forall k | k in s.disk.files :: s.disk.files[k].commit
  }

  ghost predicate Idle(s: Sys) { Inv(s) && Shape(s) && s.handlers == map[] }

  /** A step of a pass either goes on with it or ends it. */
  lemma PassStep(s: Sys)
    requires Idle(s) && !s.daemon.Waiting?
    ensures var t := Step(s, NextEvent(s));
            && Idle(t) && s.disk.files.Keys <= t.disk.files.Keys
            && (t.daemon.Waiting? ==> !t.firstRun)
            && (!s.firstRun && Succeeding(s.daemon) ==>
                 if t.daemon.Waiting? then PartLines(t.disk) == [] && (PartLines(s.disk) == [] ==> AllCommitted(t))
                 else !t.firstRun && Succeeding(t.daemon) && PartLines(t.disk) == PartLines(s.disk))
  {
    StepKeepsInv(s, NextEvent(s));
    hide HandlersInv, NoneLost, Matched, Assign;
  }

  lemma {:induction false} FinishPassOutcome(s: Sys)
    requires Idle(s) && !s.daemon.Waiting?
    ensures var t := FinishPass(s);
            && Idle(t) && t.daemon.Waiting? && !t.firstRun && s.disk.files.Keys <= t.disk.files.Keys
            && (!s.firstRun && Succeeding(s.daemon) ==>
                 PartLines(t.disk) == [] && (PartLines(s.disk) == [] ==> AllCommitted(t)))
    decreases StepsLeft(s)
  {
    var t := Step(s, NextEvent(s));
    PassStep(s);
    StepsGoDown(s);
    if !t.daemon.Waiting? {
      FinishPassOutcome(t);
    } else {
      assert FinishPass(t) == t;
    }
    hide Step, Inv, NextEvent, AllCommitted, PartLines, StepsLeft, Shape, Succeeding;
    assert FinishPass(s) == FinishPass(t);
  }

  lemma StepsGoDown(s: Sys)
    requires Shape(s) && !s.daemon.Waiting?
    ensures Shape(Step(s, NextEvent(s))) && StepsLeft(Step(s, NextEvent(s))) < StepsLeft(s)
  {
    hide Matched, Assign;
  }

  lemma PassOutcome(s: Sys)
    requires Idle(s)
    ensures Idle(Pass(s)) && Pass(s).daemon.Waiting? && s.disk.files.Keys <= Pass(s).disk.files.Keys
    ensures s.daemon.Waiting? ==>
              PartLines(Pass(s).disk) == [] && (PartLines(s.disk) == [] ==> AllCommitted(Pass(s)))
  {
    var t := Step(s, NextEvent(s));
    if s.daemon.Waiting? {
      WaitEnds(s);
      FinishPassOutcome(t);
    } else {
      PassStep(s);
      if !t.daemon.Waiting? {
        FinishPassOutcome(t);
      }
    }
    hide Inv, Step, NextEvent, AllCommitted, PartLines, Shape;
  }

  lemma WaitEnds(s: Sys)
    requires Idle(s) && s.daemon.Waiting?
    ensures var t := Step(s, NextEvent(s));
            Idle(t) && t.daemon == Reading(0, true) && t.disk == s.disk && !t.firstRun
  {
    StepKeepsInv(s, NextEvent(s));
  }

  /** Main progress result. From whatever a timely run leaves behind once its handlers are gone, three passes
      without further failures commit every rollout there is; the first of them may be the rest of a pass already
      under way. */
  lemma ThreePassesCommitAll(devices: map<string, Device>, es: seq<Event>)
    requires Run(Boot(devices), es) && TimelyRun(Boot(devices), es)
    requires Final(Boot(devices), es).handlers == map[]
    ensures var s := Final(Boot(devices), es);
            && Idle(s) && Idle(Pass(s)) && Idle(Pass(Pass(s)))
            && AllCommitted(Pass(Pass(Pass(s)))) && s.disk.files.Keys <= Pass(Pass(Pass(s))).disk.files.Keys
  {
    assert Inv(Boot(devices));
    RunKeepsInv(Boot(devices), es);
    var s := Final(Boot(devices), es);
    PassOutcome(s);
    PassOutcome(Pass(s));
    PassOutcome(Pass(Pass(s)));
  }

  /** Three is sharp: a server that crashes right after an uncommitted PUT needs its first-run pass, a pass that
      rolls the journal over, and one more. */
  lemma TwoPassesAreNotEnough(devices: map<string, Device>, line: Line, r: Rollout)
    requires !r.commit
    ensures var es, s := PutUpToWrite(line, r) + [Crash], Step(AfterPut(devices, line, r), Crash);
            && Run(Boot(devices), es) && TimelyRun(Boot(devices), es) && Final(Boot(devices), es) == s
            && s.handlers == map[] && Shape(s) && Shape(Pass(s)) && !AllCommitted(Pass(Pass(s)))
  {
    PutThenCrash(devices, line, r);
    TwoPassesAfterCrash(devices, line, r);
  }

  lemma PutThenCrash(devices: map<string, Device>, line: Line, r: Rollout)
    ensures var es, s := PutUpToWrite(line, r) + [Crash], Step(AfterPut(devices, line, r), Crash);
            Run(Boot(devices), es) && TimelyRun(Boot(devices), es) && Final(Boot(devices), es) == s
  {
    hide Run, Final, TimelyRun;
    PutRuns(devices, line, r);
    var es, t := PutUpToWrite(line, r), AfterPut(devices, line, r);
    var more := Then(Boot(devices), es, t, Crash, Step(t, Crash));
    NoWaitIsTimely(Boot(devices), more);
  }

  lemma TwoPassesAfterCrash(devices: map<string, Device>, line: Line, r: Rollout)
    requires !r.commit
    ensures var s := Step(AfterPut(devices, line, r), Crash);
            s.handlers == map[] && Shape(s) && Shape(Pass(s)) && !AllCommitted(Pass(Pass(s)))
  {
    var s := Step(AfterPut(devices, line, r), Crash);
    var waiting := Step(s, EndPass);
    assert Pass(s) == waiting;
    var s2 := Step(waiting, EndWait);
    var s3 := Step(s2, EndPass);
    var s4 := Step(s3, RollOver);
    assert FinishPass(s4) == s4 && FinishPass(s3) == s4 && FinishPass(s2) == s4;
    assert s4.disk.files[line.key] == r;
  }

  lemma OneStep(s: Sys, e: Event, t: Sys)
    requires Shape(s) && !s.daemon.Waiting? && NextEvent(s) == e && t == Step(s, e)
    ensures Shape(t) && FinishPass(s) == FinishPass(t)
  {
    StepsGoDown(s);
    hide Step, NextEvent;
  }

  /** The three steps that commit the rollout of one record. */
  lemma CommitRound(s: Sys) returns (v: Sys)
    requires Shape(s) && s.daemon.Reading? && s.daemon.next < |s.disk.journal|
    requires var k := s.disk.journal[s.daemon.next].key; k in s.disk.files && !s.disk.files[k].commit
    ensures Shape(v) && v.daemon == Reading(s.daemon.next + 1, s.daemon.success) && v.firstRun == s.firstRun
    ensures v.disk == ReplayLine(s.disk, s.disk.journal[s.daemon.next], {}) && FinishPass(s) == FinishPass(v)
  {
    hide Matched, Assign, FinishPass;
    var n, line := s.daemon.next, s.disk.journal[s.daemon.next];
    var r := s.disk.files[line.key];
    var done := Committed(s.disk.devices, line.tag, r);
    var t := s.(daemon := Found(n, s.daemon.success, r));
    OneStep(s, ReadLine, t);
    var u := t.(daemon := Updated(n, s.daemon.success, done),
                disk := SetUpdateName(s.disk, line.tag, line.key.update, r), history := Log(s, line, r));
    OneStep(t, CommitMatch, u);
    v := u.(daemon := Reading(n + 1, s.daemon.success), disk := Save(u.disk, line.key, done));
    OneStep(u, CommitSave, v);
  }

  lemma SkipRound(s: Sys)
    requires Shape(s) && s.daemon.Reading? && s.daemon.next < |s.disk.journal|
    requires var k := s.disk.journal[s.daemon.next].key; k in s.disk.files ==> s.disk.files[k].commit
    ensures var v := s.(daemon := Reading(s.daemon.next + 1, s.daemon.success));
            v.disk == ReplayLine(s.disk, s.disk.journal[s.daemon.next], {}) && FinishPass(s) == FinishPass(v)
  {
    hide FinishPass;
    OneStep(s, ReadLine, s.(daemon := Reading(s.daemon.next + 1, s.daemon.success)));
  }

  lemma LastRound(s: Sys)
    requires Shape(s) && s.daemon.Reading? && s.daemon.success && s.daemon.next == |s.disk.journal|
    ensures FinishPass(s).disk == if s.firstRun then s.disk else Rollover(s.disk)
  {
    var t := Step(s, EndPass);
    OneStep(s, EndPass, t);
    if !s.firstRun {
      OneStep(t, RollOver, Step(t, RollOver));
    }
  }

  lemma ReplayRound(d: Disk, next: nat)
    requires next < |d.journal|
    ensures Replay(d, d.journal[next..], {}) == Replay(ReplayLine(d, d.journal[next], {}), d.journal[next + 1..], {})
    ensures ReplayLine(d, d.journal[next], {}).journal == d.journal
  {
  }

  /** A quiet pass over the disk is what `Store.WatchdogRound` does. */
  lemma {:induction false} PassIsWatchdogRound(s: Sys)
    requires Shape(s) && s.daemon.Reading? && s.daemon.success
    ensures var replayed := Replay(s.disk, s.disk.journal[s.daemon.next..], {});
            FinishPass(s).disk == if s.firstRun then replayed else Rollover(replayed)
    decreases |s.disk.journal| - s.daemon.next
  {
    hide FinishPass, Step, Replay, ReplayLine, Rollover;
    var next := s.daemon.next;
    if next < |s.disk.journal| {
      ReplayRound(s.disk, next);
      var key := s.disk.journal[next].key;
      if key in s.disk.files && !s.disk.files[key].commit {
        var v := CommitRound(s);
        PassIsWatchdogRound(v);
      } else {
        SkipRound(s);
        PassIsWatchdogRound(s.(daemon := Reading(next + 1, s.daemon.success)));
      }
    } else {
      LastRound(s);
      NothingToReplay(s.disk, s.disk.journal[next..]);
    }
  }

  lemma NothingToReplay(d: Disk, lines: seq<Line>)
    requires lines == []
    ensures Replay(d, lines, {}) == d
  {
  }

  // ---- The timing assumption is needed ----

  lemma RunCons(s: Sys, e: Event, es: seq<Event>)
    requires Enabled(s, e) && Run(Step(s, e), es)
    ensures Run(s, [e] + es) && Final(s, [e] + es) == Final(Step(s, e), es)
  {
  }

  lemma {:induction false} RunConcat(s: Sys, es: seq<Event>, fs: seq<Event>)
    requires Run(s, es) && Run(Final(s, es), fs)
    ensures Run(s, es + fs) && Final(s, es + fs) == Final(Final(s, es), fs)
    decreases |es|
  {
    if es == [] {
      assert es + fs == fs;
    } else {
      RunConcat(Step(s, es[0]), es[1..], fs);
      assert [es[0]] + (es[1..] + fs) == es + fs;
      RunCons(s, es[0], es[1..] + fs);
    }
  }

  /** The run so far, and the state it leads to. */
  ghost predicate Reaches(s: Sys, es: seq<Event>, t: Sys)
  {
    Run(s, es) && Final(s, es) == t
  }

  lemma Then(s: Sys, es: seq<Event>, t: Sys, e: Event, u: Sys) returns (more: seq<Event>)
    requires Reaches(s, es, t) && Enabled(t, e) && u == Step(t, e)
    ensures Reaches(s, more, u) && more == es + [e]
  {
    hide Enabled, Step;
    assert [e] + [] == [e] && Run(u, []);
    RunCons(t, e, []);
    RunConcat(s, es, [e]);
    more := es + [e];
  }

  function Fresh(disk: Disk, gen: nat, epoch: nat, handlers: map<nat, Handler>, daemon: Daemon, firstRun: bool): Sys
  {
    Sys(disk, gen, epoch, handlers, daemon, firstRun, map[], [])
  }

  /** The first half of a PUT, in any state and among any other handlers. */
  lemma PutRecords(s: Sys, id: nat, line: Line, r: Rollout) returns (es: seq<Event>)
    requires id !in s.handlers && line.key !in s.disk.files
    ensures es == [PutCheck(id, line, r), PutOpen(id), PutAppend(id)]
    ensures Reaches(s, es, s.(handlers := s.handlers[id := Appended(line, r, s.epoch)], disk := Append(s.disk, line)))
  {
    hide Reaches;
    var h, records := s.handlers, PartLines(s.disk);
    es := NothingYet(s);
    var s1 := s.(handlers := h[id := Checked(line, r)]);
    es := Then(s, es, s, PutCheck(id, line, r), s1);
    var s2 := s.(handlers := h[id := Opened(line, r, s.gen, s.epoch)], disk := s.disk.(part := Some(records)));
    es := Then(s, es, s1, PutOpen(id), s2);
    es := Then(s, es, s2, PutAppend(id),
               s.(handlers := h[id := Appended(line, r, s.epoch)], disk := Append(s.disk, line)));
  }

  /** The second half. */
  lemma PutCommits(s: Sys, es: seq<Event>, t: Sys, id: nat, line: Line, r: Rollout) returns (more: seq<Event>)
    requires id in t.handlers && t.handlers[id].Appended? && t.handlers[id].line == line && t.handlers[id].rollout == r
    requires Reaches(s, es, t)
    ensures more == es + [PutWrite(id)] + [PutMatch(id)] + [PutSave(id)]
    ensures Reaches(s, more, t.(handlers := t.handlers - {id}, disk := Commit(Save(t.disk, line.key, r), line, r),
                                origin := t.origin[line.key := line.tag],
                                history := t.history + [Update(line, r, t.disk.devices)]))
  {
    hide Reaches, Matched, Assign;
    var done, h := Committed(t.disk.devices, line.tag, r), t.handlers;
    var s4 := t.(handlers := h[id := Written(line, r)], disk := Save(t.disk, line.key, r),
                 origin := t.origin[line.key := line.tag]);
    more := Then(s, es, t, PutWrite(id), s4);
    var s5 := s4.(handlers := h[id := Matching(line, done)],
                  disk := SetUpdateName(s4.disk, line.tag, line.key.update, r), history := Log(s4, line, r));
    more := Then(s, more, s4, PutMatch(id), s5);
    assert h[id := Matching(line, done)] - {id} == h - {id};
    more := Then(s, more, s5, PutSave(id), s5.(handlers := h - {id}, disk := Commit(s4.disk, line, r)));
  }

  /** One PUT from beginning to end, in any state and among any other handlers: its six steps leave on the disk what
      `Store.CreateRollout` and `Store.CommitRollout` do, and the handler is gone. */
  lemma PutIsCreateAndCommit(s: Sys, id: nat, line: Line, r: Rollout) returns (es: seq<Event>)
    requires id !in s.handlers && line.key !in s.disk.files
    ensures es == [PutCheck(id, line, r), PutOpen(id), PutAppend(id), PutWrite(id), PutMatch(id), PutSave(id)]
    ensures Reaches(s, es, s.(disk := Commit(Save(Append(s.disk, line), line.key, r), line, r),
                              origin := s.origin[line.key := line.tag],
                              history := s.history + [Update(line, r, s.disk.devices)]))
  {
    hide Reaches, Commit;
    es := PutRecords(s, id, line, r);
    var t := s.(handlers := s.handlers[id := Appended(line, r, s.epoch)], disk := Append(s.disk, line));
    es := PutCommits(s, es, t, id, line, r);
    assert t.handlers - {id} == s.handlers;
  }

  /** A handler journals its record; the first-run pass and the next one end, and the record becomes the journal. */
  lemma RecordThenRollover(devices: map<string, Device>, a: Line, r: Rollout) returns (es: seq<Event>)
    ensures Reaches(Boot(devices), es,
                    Fresh(Disk([a], None, map[], devices), 1, 2, map[0 := Appended(a, r, 0)], Waiting, false))
  {
    hide Reaches;
    var s0, d0, d := Boot(devices), Disk([], Some([]), map[], devices), Disk([], Some([a]), map[], devices);
    var h := map[0 := Appended(a, r, 0)];
    es := NothingYet(s0);
    var s1 := Fresh(s0.disk, 0, 0, map[0 := Checked(a, r)], Reading(0, true), true);
    es := Then(s0, es, s0, PutCheck(0, a, r), s1);
    var s2 := Fresh(d0, 0, 0, map[0 := Opened(a, r, 0, 0)], Reading(0, true), true);
    es := Then(s0, es, s1, PutOpen(0), s2);
    assert [] + [a] == [a];
    es := Then(s0, es, s2, PutAppend(0), Fresh(d, 0, 0, h, Reading(0, true), true));
    es := Then(s0, es, Fresh(d, 0, 0, h, Reading(0, true), true), EndPass, Fresh(d, 0, 1, h, Waiting, false));
    es := Then(s0, es, Fresh(d, 0, 1, h, Waiting, false), EndWait, Fresh(d, 0, 1, h, Reading(0, true), false));
    es := Then(s0, es, Fresh(d, 0, 1, h, Reading(0, true), false), EndPass, Fresh(d, 0, 1, h, Rolling, false));
    es := Then(s0, es, Fresh(d, 0, 1, h, Rolling, false), RollOver,
               Fresh(Disk([a], None, map[], devices), 1, 2, h, Waiting, false));
  }

  lemma NothingYet(s: Sys) returns (es: seq<Event>)
    ensures Reaches(s, es, s) && es == []
  {
    es := [];
  }

  /** A second PUT starts a new part file while the first handler still has no rollout file. */
  lemma SecondPut(s0: Sys, devices: map<string, Device>, a: Line, b: Line, r: Rollout) returns (es: seq<Event>)
    requires a.key != b.key &&
        s0 == Fresh(Disk([a], None, map[], devices), 1, 2, map[0 := Appended(a, r, 0)], Waiting, false)
    ensures Reaches(s0, es, Fresh(Disk([a], Some([]), map[], devices), 1, 2,
                                  map[0 := Appended(a, r, 0), 1 := Opened(b, r, 1, 2)], Waiting, false))
  {
    hide Reaches;
    es := NothingYet(s0);
    var s1 := Fresh(s0.disk, 1, 2, map[0 := Appended(a, r, 0), 1 := Checked(b, r)], Waiting, false);
    es := Then(s0, es, s0, PutCheck(1, b, r), s1);
    es := Then(s0, es, s1, PutOpen(1), Fresh(Disk([a], Some([]), map[], devices), 1, 2,
                                             map[0 := Appended(a, r, 0), 1 := Opened(b, r, 1, 2)], Waiting, false));
  }

  lemma OnlyFileIsLost(t: Sys, a: Line, r: Rollout)
    requires !r.commit && t.disk.files == map[a.key := r] && t.disk.journal == [] && t.disk.part.None?
    ensures Lost(t, a.key)
  {
  }

  /** A pass whose one record names no file rolls the empty part file over the journal. */
  lemma VainPass(s0: Sys, before: seq<Event>, a: Line, devices: map<string, Device>, h: map<nat, Handler>)
    returns (es: seq<Event>)
    requires Reaches(s0, before, Fresh(Disk([a], Some([]), map[], devices), 1, 2, h, Waiting, false))
    ensures Reaches(s0, es, Fresh(Disk([], None, map[], devices), 2, 3, h, Waiting, false))
  {
    hide Reaches, Matched, Assign, Committed;
    var d := Disk([a], Some([]), map[], devices);
    es := Then(s0, before, Fresh(d, 1, 2, h, Waiting, false), EndWait, Fresh(d, 1, 2, h, Reading(0, true), false));
    es := Then(s0, es, Fresh(d, 1, 2, h, Reading(0, true), false), ReadLine,
               Fresh(d, 1, 2, h, Reading(1, true), false));
    es := Then(s0, es, Fresh(d, 1, 2, h, Reading(1, true), false), EndPass, Fresh(d, 1, 2, h, Rolling, false));
    es := Then(s0, es, Fresh(d, 1, 2, h, Rolling, false), RollOver,
               Fresh(Disk([], None, map[], devices), 2, 3, h, Waiting, false));
  }

  /** The record is replayed in vain, the journal is replaced, and only now the first handler writes
      its rollout file. */
  lemma ReplayThenWrite(devices: map<string, Device>, a: Line, b: Line, r: Rollout) returns (es: seq<Event>, t: Sys)
    requires !r.commit && a.key != b.key
    ensures Reaches(Fresh(Disk([a], None, map[], devices), 1, 2, map[0 := Appended(a, r, 0)], Waiting, false), es, t)
    ensures Lost(t, a.key)
  {
    hide Reaches, Lost;
    var s0 := Fresh(Disk([a], None, map[], devices), 1, 2, map[0 := Appended(a, r, 0)], Waiting, false);
    var h := map[0 := Appended(a, r, 0), 1 := Opened(b, r, 1, 2)];
    es := SecondPut(s0, devices, a, b, r);
    es := VainPass(s0, es, a, devices, h);
    t := Sys(Disk([], None, map[a.key := r], devices), 2, 3, h[0 := Written(a, r)], Waiting, false, map[a.key := a.tag],
             []);
    es := Then(s0, es, Fresh(Disk([], None, map[], devices), 2, 3, h, Waiting, false), PutWrite(0), t);
    OnlyFileIsLost(t, a, r);
  }

  /** A handler that outlives a whole wait between its record and its file loses the rollout. */
  lemma UntimelyHandlerLosesRollout(devices: map<string, Device>, a: Line, b: Line, r: Rollout) returns (es: seq<Event>)
    requires !r.commit && a.key != b.key
    ensures Run(Boot(devices), es) && !NoneLost(Final(Boot(devices), es))
  {
    hide Run, Final, Step, Enabled, Lost;
    var before := RecordThenRollover(devices, a, r);
    var after, t := ReplayThenWrite(devices, a, b, r);
    RunConcat(Boot(devices), before, after);
    es := before + after;
  }

  /** At a rollover of an existing part file, a record the part file lacks is dropped: the handler that wrote it goes on
      to lose its rollout, and no other handler that has appended does. */
  lemma RolloverDropsRecord(s: Sys, id: nat)
    requires s.daemon.Rolling? && s.disk.part.Some?
    requires id in s.handlers && s.handlers[id].Appended? && !s.handlers[id].rollout.commit
    ensures Lost(Step(Step(s, RollOver), PutWrite(id)), s.handlers[id].line.key)
            <==> s.handlers[id].line !in PartLines(s.disk)
  {
  }

  /** The same for a handler that has opened a part file and not yet appended: its record is lost exactly when it opened
      the file before the last one and nobody else has recorded the same. */
  lemma RolloverDropsOpenFile(s: Sys, id: nat)
    requires s.daemon.Rolling? && s.disk.part.Some?
    requires id in s.handlers && s.handlers[id].Opened? && !s.handlers[id].rollout.commit &&
        s.handlers[id].inode <= s.gen
    ensures Lost(Step(Step(Step(s, RollOver), PutAppend(id)), PutWrite(id)), s.handlers[id].line.key)
            <==> s.handlers[id].inode != s.gen && s.handlers[id].line !in PartLines(s.disk)
  {
    var h, t := s.handlers[id], Step(Step(s, RollOver), PutAppend(id));
    var journal := s.disk.part.value;
    assert t.disk.part.None? && t.disk.journal == if h.inode == s.gen then journal + [h.line] else journal;
    assert t.handlers[id] == Appended(h.line, h.rollout, h.since);
    WriteAfterRollover(t, id);
  }

  lemma WriteAfterRollover(t: Sys, id: nat)
    requires id in t.handlers && t.handlers[id].Appended? && !t.handlers[id].rollout.commit && t.disk.part.None?
    ensures Lost(Step(t, PutWrite(id)), t.handlers[id].line.key) <==> t.handlers[id].line !in t.disk.journal
  {
  }
}
