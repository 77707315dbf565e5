/** The OAuth2 device flow (RFC 8628): rows that a user approves or denies and that a device redeems for a token, with
    handlers whose reads and writes may interleave. */
module DeviceFlow {
  import opened TextLines
  import opened Scopes

  type Code = nat
  type UserId = nat

  datatype Row = Row(expiresAt: int, scopes: string, userId: Option<UserId>, authorized: bool, denied: bool)

  type Rows = map<Code, Row>

  // ---- Statements on the table ----

  predicate Open(rows: Rows, code: Code)
  {
    code in rows && !rows[code].authorized && !rows[code].denied
  }

  /** `UPDATE ... WHERE device_code = ? AND authorized = 0 AND denied = 0` */
  function Authorize(rows: Rows, code: Code, user: UserId, scopes: string): Rows
  {
    if Open(rows, code) then rows[code := Row(rows[code].expiresAt, scopes, Some(user), true, false)] else rows
  }

  function Deny(rows: Rows, code: Code): Rows
  {
    if Open(rows, code) then rows[code := rows[code].(denied := true)] else rows
  }

  function DeleteExpired(rows: Rows, before: int): Rows
  {
    map c | c in rows && rows[c].expiresAt >= before :: rows[c]
  }

  // ---- Handlers ----

  /** What a handler has read so far. `session` and `owner` are the scopes of the approving session and of the
      user who owns the token at the time the handler loaded that user; `removed` says whether the handler's
      delete found a row. */
  datatype Handler =
    | Approving(code: Code, user: UserId, session: Mask, granted: Mask)
    | Denying(code: Code)
    | Polled(code: Code, row: Row)
    | Loaded(code: Code, user: UserId, owner: Mask, scopes: Mask)
    | Consumed(code: Code, user: UserId, owner: Mask, scopes: Mask, removed: bool)

  datatype Token = Token(code: Code, user: UserId, owner: Mask, scopes: Mask, removed: bool)

  datatype Approval = Approval(user: UserId, session: Mask)

  /** `requested` and `approvals` are history only: what was asked for under each code, and who approved it. */
  datatype Sys = Sys(rows: Rows, users: map<UserId, Mask>, handlers: map<nat, Handler>, tokens: seq<Token>,
                     requested: map<Code, Mask>, approvals: map<Code, Approval>)

  datatype Event =
    | Request(code: Code, scopes: string, expiresAt: int)
    | StartApproval(id: nat, code: Code, user: UserId, session: Mask, now: int)
    | StartDenial(id: nat, code: Code, now: int)
    | Poll(id: nat, code: Code, now: int)
    | Continue(id: nat)
    | Abort(id: nat)
    | SetUser(user: UserId, allowed: Option<Mask>)
    | Expire(before: int)

  predicate Live(rows: Rows, code: Code, now: int)
  {
    code in rows && rows[code].expiresAt >= now
  }

  /** Whether the checks of the token handler let it go on to load the user. */
  predicate Redeemable(rows: Rows, code: Code, now: int)
  {
    Live(rows, code, now) && !rows[code].denied && rows[code].authorized && rows[code].userId.Some?
  }

  function Without(s: Sys, id: nat): Sys
  {
    s.(handlers := s.handlers - {id})
  }

  /** The next step of one handler. */
  function Advance(s: Sys, id: nat): Sys
    requires id in s.handlers
  {
    match s.handlers[id]
    case Approving(code, user, session, granted) =>
      Without(s, id).(rows := Authorize(s.rows, code, user, ToString(granted)),
                      approvals := if Open(s.rows, code) then s.approvals[code := Approval(user, session)]
                                   else s.approvals)
    case Denying(code) =>
      Without(s, id).(rows := Deny(s.rows, code))
    case Polled(code, row) =>
      var parsed := Parse(row.scopes);
      if row.userId.None? || row.userId.value !in s.users || parsed.None? then Without(s, id)
      else
        var user := row.userId.value;
        s.(handlers := s.handlers[id := Loaded(code, user, s.users[user], s.users[user] * parsed.value)])
    case Loaded(code, user, owner, scopes) =>
      s.(rows := s.rows - {code}, handlers := s.handlers[id := Consumed(code, user, owner, scopes, code in s.rows)])
    case Consumed(code, user, owner, scopes, removed) =>
      if scopes * owner != scopes then Without(s, id)
      else Without(s, id).(tokens := s.tokens + [Token(code, user, owner, scopes, removed)])
  }

  /** Codes are random and never repeat; a handler id belongs to one request. */
  predicate Enabled(s: Sys, e: Event)
  {
    match e
    case Request(code, scopes, expiresAt) => code !in s.requested && Parse(scopes).Some?
    case StartApproval(id, code, user, session, now) =>
      id !in s.handlers && Live(s.rows, code, now) && Open(s.rows, code) && Parse(s.rows[code].scopes).Some?
    case StartDenial(id, code, now) => id !in s.handlers && Live(s.rows, code, now) && Open(s.rows, code)
    case Poll(id, code, now) => id !in s.handlers && Redeemable(s.rows, code, now)
    case Continue(id) => id in s.handlers
    case Abort(id) => id in s.handlers
    case SetUser(user, allowed) => true
    case Expire(before) => true
  }

  function Step(s: Sys, e: Event): Sys
    requires Enabled(s, e)
  {
    match e
    case Request(code, scopes, expiresAt) =>
      s.(rows := s.rows[code := Row(expiresAt, scopes, None, false, false)],
         requested := s.requested[code := Parse(scopes).value])
    case StartApproval(id, code, user, session, now) =>
      s.(handlers := s.handlers[id := Approving(code, user, session, Parse(s.rows[code].scopes).value * session)])
    case StartDenial(id, code, now) => s.(handlers := s.handlers[id := Denying(code)])
    case Poll(id, code, now) => s.(handlers := s.handlers[id := Polled(code, s.rows[code])])
    case Continue(id) => Advance(s, id)
    case Abort(id) => Without(s, id)
    case SetUser(user, allowed) =>
      s.(users := if allowed.Some? then s.users[user := allowed.value] else s.users - {user})
    case Expire(before) => s.(rows := DeleteExpired(s.rows, before))
  }

  function Start(): Sys
  {
    Sys(map[], map[], map[], [], map[], map[])
  }

  predicate IsRun(events: seq<Event>, trace: seq<Sys>)
  {
    && |trace| == |events| + 1 && trace[0] == Start()
    && forall i | 0 <= i < |events| :: Enabled(trace[i], events[i]) && trace[i + 1] == Step(trace[i], events[i])
  }

  // ---- What every step keeps ----

  /** The scopes stay within what was requested and, once approved, within what the approver had. */
  predicate Within(s: Sys, code: Code, user: UserId, scopes: Mask)
  {
    && code in s.requested && code in s.approvals && s.approvals[code].user == user
    && scopes <= s.requested[code] && scopes <= s.approvals[code].session
  }

  predicate RowOk(s: Sys, code: Code, row: Row)
  {
    && code in s.requested
    && !(row.authorized && row.denied)
    && (row.authorized ==> row.userId.Some?)
    && (row.authorized && Parse(row.scopes).Some? ==> Within(s, code, row.userId.value, Parse(row.scopes).value))
    && (!row.authorized ==> code !in s.approvals && Parse(row.scopes) == Some(s.requested[code]))
  }

  predicate HandlerOk(s: Sys, h: Handler)
  {
    match h
    case Approving(code, user, session, granted) =>
      code in s.requested && granted <= s.requested[code] && granted <= session
    case Denying(code) => true
    case Polled(code, row) => row.authorized && RowOk(s, code, row)
    case Loaded(code, user, owner, scopes) => Within(s, code, user, scopes) && scopes <= owner
    case Consumed(code, user, owner, scopes, removed) => Within(s, code, user, scopes) && scopes <= owner
  }

  predicate TokenOk(s: Sys, t: Token)
  {
    Within(s, t.code, t.user, t.scopes) && t.scopes <= t.owner
  }

  predicate Inv(s: Sys)
  {
    && (forall c | c in s.rows :: RowOk(s, c, s.rows[c]))
    && (forall id | id in s.handlers :: HandlerOk(s, s.handlers[id]))
    && (forall i | 0 <= i < |s.tokens| :: TokenOk(s, s.tokens[i]))
    && (forall c | c in s.approvals :: c in s.requested)
  }

  /** The history only grows. */
  predicate Extends(s: Sys, t: Sys)
  {
    && (forall c | c in s.requested :: c in t.requested && t.requested[c] == s.requested[c])
    && (forall c | c in s.approvals :: c in t.approvals && t.approvals[c] == s.approvals[c])
  }

  lemma OthersKeep(s: Sys, t: Sys, code: Code)
    requires Inv(s) && Extends(s, t)
    requires forall c | c in t.approvals && c !in s.approvals :: c == code
    ensures forall c | c in s.rows && c != code :: RowOk(t, c, s.rows[c])
    ensures forall id | id in s.handlers :: HandlerOk(t, s.handlers[id])
    ensures forall i | 0 <= i < |s.tokens| :: TokenOk(t, s.tokens[i])
  {
    hide Parse;
    forall c | c in s.rows && c != code ensures RowOk(t, c, s.rows[c]) {
      assert RowOk(s, c, s.rows[c]);
    }
    forall id | id in s.handlers ensures HandlerOk(t, s.handlers[id]) {
      assert HandlerOk(s, s.handlers[id]);
    }
    forall i | 0 <= i < |s.tokens| ensures TokenOk(t, s.tokens[i]) {
      assert TokenOk(s, s.tokens[i]);
    }
  }

  lemma AllKeep(s: Sys, t: Sys)
    requires Inv(s) && t.requested == s.requested && t.approvals == s.approvals
    ensures forall c | c in s.rows :: RowOk(t, c, s.rows[c])
    ensures forall id | id in s.handlers :: HandlerOk(t, s.handlers[id])
    ensures forall i | 0 <= i < |s.tokens| :: TokenOk(t, s.tokens[i])
  {
  }

  lemma ApprovalKeeps(s: Sys, id: nat, h: Handler)
    requires Inv(s) && id in s.handlers && h == s.handlers[id] && (h.Approving? || h.Denying?)
    ensures Inv(Advance(s, id)) && Extends(s, Advance(s, id))
  {
    hide Parse, ToString;
    var t := Advance(s, id);
    assert HandlerOk(s, h);
    assert h.code in s.rows ==> RowOk(s, h.code, s.rows[h.code]);
    if h.Approving? { TextNeverWidens(h.granted); }
    OthersKeep(s, t, h.code);
    assert h.code in t.rows ==> RowOk(t, h.code, t.rows[h.code]);
  }

  lemma RedeemKeeps(s: Sys, id: nat, h: Handler)
    requires Inv(s) && id in s.handlers && h == s.handlers[id] && (h.Polled? || h.Loaded? || h.Consumed?)
    ensures Inv(Advance(s, id)) && Extends(s, Advance(s, id))
  {
    hide Parse, RowOk;
    var t := Advance(s, id);
    AllKeep(s, t);
    assert HandlerOk(s, h);
    if h.Polled? {
      PolledIsOk(s, h.code, h.row);
    }
  }

  lemma PolledIsOk(s: Sys, code: Code, row: Row)
    requires RowOk(s, code, row) && row.authorized
    ensures row.userId.Some?
    ensures Parse(row.scopes).Some? ==> Within(s, code, row.userId.value, Parse(row.scopes).value)
  {
  }

  lemma StartKeeps(s: Sys, e: Event)
    requires Inv(s) && Enabled(s, e) && (e.StartApproval? || e.StartDenial? || e.Poll?)
    ensures Inv(Step(s, e)) && Extends(s, Step(s, e))
  {
    hide Parse;
    AllKeep(s, Step(s, e));
    assert RowOk(s, e.code, s.rows[e.code]);
  }

  lemma RequestKeeps(s: Sys, e: Event)
    requires Inv(s) && Enabled(s, e) && e.Request?
    ensures Inv(Step(s, e)) && Extends(s, Step(s, e))
  {
    hide Parse;
    OthersKeep(s, Step(s, e), e.code);
  }

  lemma QuietKeeps(s: Sys, e: Event)
    requires Inv(s) && Enabled(s, e) && (e.Abort? || e.SetUser? || e.Expire?)
    ensures Inv(Step(s, e)) && Extends(s, Step(s, e))
  {
    hide Parse, RowOk, HandlerOk, TokenOk;
    AllKeep(s, Step(s, e));
  }

  lemma StepKeeps(s: Sys, e: Event)
    requires Inv(s) && Enabled(s, e)
    ensures Inv(Step(s, e)) && Extends(s, Step(s, e))
  {
    hide Advance, Inv, Extends, Parse;
    match e
    case Request(code, scopes, expiresAt) => RequestKeeps(s, e);
    case Continue(id) =>
      var h := s.handlers[id];
      if h.Approving? || h.Denying? { ApprovalKeeps(s, id, h); } else { RedeemKeeps(s, id, h); }
    case Abort(id) => QuietKeeps(s, e);
    case SetUser(user, allowed) => QuietKeeps(s, e);
    case Expire(before) => QuietKeeps(s, e);
    case _ => StartKeeps(s, e);
  }

  lemma {:induction false} RunKeeps(events: seq<Event>, trace: seq<Sys>, k: nat)
    requires IsRun(events, trace) && k < |trace|
    ensures Inv(trace[k])
  {
    hide Enabled, Step, RowOk, HandlerOk, TokenOk;
    if k > 0 {
      RunKeeps(events, trace, k - 1);
      StepKeeps(trace[k - 1], events[k - 1]);
    }
  }

  // ---- Whose scopes a token has ----

  predicate InTable(s: Sys, user: UserId, owner: Mask)
  {
    user in s.users && s.users[user] == owner
  }

  predicate KnowsOwner(h: Handler)
  {
    h.Loaded? || h.Consumed?
  }

  /** The users table says it, or a handler has read it there. */
  predicate Known(s: Sys, user: UserId, owner: Mask)
  {
    || InTable(s, user, owner)
    || exists id | id in s.handlers ::
        KnowsOwner(s.handlers[id]) && s.handlers[id].user == user && s.handlers[id].owner == owner
  }

  /** Whatever handlers and new tokens of `t` say of an owner was known in `s`. */
  predicate OwnersCarried(s: Sys, t: Sys)
  {
    && (forall id | id in t.handlers && KnowsOwner(t.handlers[id]) ::
        Known(s, t.handlers[id].user, t.handlers[id].owner))
    && s.tokens <= t.tokens
    && (forall i | |s.tokens| <= i < |t.tokens| :: Known(s, t.tokens[i].user, t.tokens[i].owner))
  }

  lemma OwnerAdvance(s: Sys, id: nat)
    requires id in s.handlers
    ensures OwnersCarried(s, Advance(s, id))
  {
    WhatIsRead(s);
    hide Parse, ToString, Authorize, Deny, Known;
    var h := s.handlers[id];
    if h.Approving? || h.Denying? {
    } else if h.Polled? {
    } else {
      assert KnowsOwner(h);
    }
  }

  lemma WhatIsRead(s: Sys)
    ensures forall id | id in s.handlers && KnowsOwner(s.handlers[id]) ::
        Known(s, s.handlers[id].user, s.handlers[id].owner)
    ensures forall u | u in s.users :: Known(s, u, s.users[u])
  {
  }

  lemma OwnerStep(s: Sys, e: Event)
    requires Enabled(s, e)
    ensures OwnersCarried(s, Step(s, e))
  {
    hide Parse, DeleteExpired, Advance;
    if e.Continue? { OwnerAdvance(s, e.id); hide OwnersCarried; }
  }

  /** At some time up to `k`, `owner` was what the users table said of `user`. */
  ghost predicate WasInTable(trace: seq<Sys>, k: nat, user: UserId, owner: Mask)
    requires k < |trace|
  {
    exists j: nat :: j <= k && InTable(trace[j], user, owner)
  }

  lemma {:induction false} OwnersAreReal(events: seq<Event>, trace: seq<Sys>, k: nat)
    requires IsRun(events, trace) && k < |trace|
    ensures forall id | id in trace[k].handlers && KnowsOwner(trace[k].handlers[id]) ::
              WasInTable(trace, k, trace[k].handlers[id].user, trace[k].handlers[id].owner)
    ensures forall i | 0 <= i < |trace[k].tokens| ::
              WasInTable(trace, k, trace[k].tokens[i].user, trace[k].tokens[i].owner)
  {
    hide Enabled, Step, InTable;
    if k > 0 {
      OwnersAreReal(events, trace, k - 1);
      var s, t, e := trace[k - 1], trace[k], events[k - 1];
      assert Enabled(s, e) && t == Step(s, e);
      OwnerStep(s, e);
      forall user, owner | WasInTable(trace, k - 1, user, owner) || InTable(s, user, owner)
        ensures WasInTable(trace, k, user, owner)
      {
        if WasInTable(trace, k - 1, user, owner) {
          var j: nat :| j <= k - 1 && InTable(trace[j], user, owner);
        }
      }
      forall user, owner | Known(s, user, owner) ensures WasInTable(trace, k, user, owner) {
        if !InTable(s, user, owner) {
          var id :| id in s.handlers && KnowsOwner(s.handlers[id]) && s.handlers[id].user == user &&
              s.handlers[id].owner == owner;
        }
      }
    }
  }

  /** In every run, whatever interleaves, each token's scopes lie within what the device requested, what the approving
      session had, and what the users table said of the token's owner at some earlier time, when the token handler
      loaded that user; and the owner is the approver. */
  lemma TokensStayWithin(events: seq<Event>, trace: seq<Sys>, k: nat, i: nat)
    requires IsRun(events, trace) && k < |trace| && i < |trace[k].tokens|
    ensures var s, t := trace[k], trace[k].tokens[i];
            && t.code in s.requested && t.code in s.approvals && s.approvals[t.code].user == t.user
            && t.scopes <= s.requested[t.code] && t.scopes <= s.approvals[t.code].session
            && exists j: nat :: j <= k && InTable(trace[j], t.user, t.owner) && t.scopes <= trace[j].users[t.user]
  {
    RunKeeps(events, trace, k);
    var t := trace[k].tokens[i];
    assert TokenOk(trace[k], t);
    OwnersAreReal(events, trace, k);
    assert WasInTable(trace, k, t.user, t.owner);
    var j: nat :| j <= k && InTable(trace[j], t.user, t.owner);
    assert t.scopes <= trace[j].users[t.user];
  }

  // ---- What a stored token's text says ----

  /** The users' scopes come from text or from lists of names, so they are unions of declared scopes. */
  predicate ProperUsers(events: seq<Event>)
  {
    forall e | e in events :: e.SetUser? && e.allowed.Some? ==> Proper(e.allowed.value)
  }

  predicate ProperInv(s: Sys)
  {
    && (forall u | u in s.users :: Proper(s.users[u]))
    && (forall id | id in s.handlers && KnowsOwner(s.handlers[id]) :: Proper(s.handlers[id].scopes))
    && (forall i | 0 <= i < |s.tokens| :: Proper(s.tokens[i].scopes))
  }

  lemma ProperStep(s: Sys, e: Event)
    requires Enabled(s, e) && ProperInv(s)
    requires e.SetUser? && e.allowed.Some? ==> Proper(e.allowed.value)
    ensures ProperInv(Step(s, e))
  {
    hide Parse, Proper, DeleteExpired, Advance;
    if e.Continue? { ProperAdvance(s, e.id); hide ProperInv; }
  }

  lemma ProperAdvance(s: Sys, id: nat)
    requires id in s.handlers && ProperInv(s)
    ensures ProperInv(Advance(s, id))
  {
    hide Parse, ToString, Proper, Authorize, Deny;
    var h := s.handlers[id];
    if h.Polled? && h.row.userId.Some? && h.row.userId.value in s.users && Parse(h.row.scopes).Some? {
      TextRoundTrip({});
      MeetKeepsProper(s.users[h.row.userId.value], Parse(h.row.scopes).value);
    }
  }

  lemma {:induction false} ProperRun(events: seq<Event>, trace: seq<Sys>, k: nat)
    requires IsRun(events, trace) && ProperUsers(events) && k < |trace|
    ensures ProperInv(trace[k])
  {
    hide Enabled, Step, Proper;
    if k > 0 {
      ProperRun(events, trace, k - 1);
      ProperStep(trace[k - 1], events[k - 1]);
    }
  }

  /** In every run the text stored for a token reads back as the token's scopes if and only if there are any; what an
      empty grant stores is never read back at all. */
  lemma TokenTextReadsBack(events: seq<Event>, trace: seq<Sys>, k: nat, i: nat)
    requires IsRun(events, trace) && ProperUsers(events) && k < |trace| && i < |trace[k].tokens|
    ensures var m := trace[k].tokens[i].scopes;
            && (Parse(ToString(m)) == Some(m) <==> m != {})
            && (m == {} ==> Parse(ToString(m)) == None)
  {
    hide Parse, ToString, Proper, IsRun;
    ProperRun(events, trace, k);
    var m := trace[k].tokens[i].scopes;
    TextRoundTrip(m);
    if m == {} { EmptyTextIsRefused(); }
  }

  lemma NothingIsBelowNothing()
    ensures forall m: Mask | m <= {} :: m == {}
  {
  }

  lemma EmptyTextIsRefused()
    ensures Parse(ToString({})) == None
  {
    hide Parse, ToString, Proper;
    TextRoundTrip({});
    TextNeverWidens({});
    NothingIsBelowNothing();
  }

  lemma DecidedRowStays(s: Sys, e: Event, code: Code)
    requires Enabled(s, e) && code in s.rows && !Open(s.rows, code)
    requires e.Request? ==> e.code != code
    ensures code in Step(s, e).rows ==> Step(s, e).rows[code] == s.rows[code]
  {
    hide Parse, ToString;
  }

  /** In every run no row is both authorized and denied, and a decided row changes no more: approver, scopes and denial
      are set once, and the recorded approval of a code is never replaced. */
  lemma DecisionsAreFinal(events: seq<Event>, trace: seq<Sys>, k: nat, code: Code)
    requires IsRun(events, trace) && k < |events|
    ensures var s, t := trace[k], trace[k + 1];
            && (code in s.rows ==> !(s.rows[code].authorized && s.rows[code].denied))
            && (code in s.rows && (s.rows[code].authorized || s.rows[code].denied) && code in t.rows ==>
                  t.rows[code] == s.rows[code])
            && (code in s.approvals ==> code in t.approvals && t.approvals[code] == s.approvals[code])
  {
    RunKeeps(events, trace, k);
    var s, e := trace[k], events[k];
    StepKeeps(s, e);
    assert Enabled(s, e) && trace[k + 1] == Step(s, e);
    hide Parse, Step;
    if code in s.rows {
      assert RowOk(s, code, s.rows[code]);
      if !Open(s.rows, code) { DecidedRowStays(s, e, code); }
    }
  }

  // ---- What happens to a row ----

  /** A row comes from a request; it goes when it has expired or when a token handler deletes it. */
  predicate ComesAndGoes(s: Sys, e: Event, t: Sys, code: Code)
  {
    && (code !in s.rows && code in t.rows ==>
          e.Request? && e.code == code && t.rows[code] == Row(e.expiresAt, e.scopes, None, false, false))
    && (code in s.rows ==> (code !in t.rows <==>
          || (e.Expire? && s.rows[code].expiresAt < e.before)
          || (e.Continue? && e.id in s.handlers && s.handlers[e.id].Loaded? && s.handlers[e.id].code == code)))
  }

  /** A row in the table changes when a handler approves or denies it and nobody has done so before: an approval writes
      down who approved and which scopes, a denial changes nothing else. */
  predicate Changes(s: Sys, e: Event, row: Row, after: Row, code: Code)
  {
    var h := if e.Continue? && e.id in s.handlers then Some(s.handlers[e.id]) else None;
    after == if h.None? || row.authorized || row.denied then row
             else if h.value.Approving? && h.value.code == code then
               Row(row.expiresAt, ToString(h.value.granted), Some(h.value.user), true, false)
             else if h.value.Denying? && h.value.code == code then
               Row(row.expiresAt, row.scopes, row.userId, false, true)
             else row
  }

  /** What lets a handler start: a row that has not expired, approved for a token handler and undecided for the
      others. */
  lemma StartsExactly(s: Sys, id: nat, code: Code, user: UserId, session: Mask, now: int)
    ensures var live := id !in s.handlers && code in s.rows && s.rows[code].expiresAt >= now;
            && (Enabled(s, Poll(id, code, now))
                <==> live && s.rows[code].authorized && !s.rows[code].denied && s.rows[code].userId.Some?)
            && (Enabled(s, StartDenial(id, code, now))
                <==> live && !s.rows[code].authorized && !s.rows[code].denied)
            && (Enabled(s, StartApproval(id, code, user, session, now))
                <==> live && !s.rows[code].authorized && !s.rows[code].denied && Parse(s.rows[code].scopes).Some?)
  {
    hide Parse;
  }

  /** A denial that goes on before anything else happens denies its row. */
  lemma DenialDenies(s: Sys, id: nat, code: Code, now: int)
    requires Enabled(s, StartDenial(id, code, now))
    ensures var t := Step(s, StartDenial(id, code, now));
            Enabled(t, Continue(id)) &&
                Step(t, Continue(id)) == s.(rows := s.rows[code := s.rows[code].(denied := true)])
  {
    hide Parse, ToString;
    assert s.handlers[id := Denying(code)] - {id} == s.handlers;
  }

  /** A user who is deleted before the token handler loads them gets no token. */
  lemma DeletedUserGetsNothing(s: Sys, id: nat, user: UserId)
    requires id in s.handlers && s.handlers[id].Polled? && s.handlers[id].row.userId == Some(user)
    ensures var t := Step(s, SetUser(user, None));
            Enabled(t, Continue(id)) && Step(t, Continue(id)).tokens == s.tokens &&
                id !in Step(t, Continue(id)).handlers
  {
    hide Parse, ToString;
  }

  lemma RowStep(s: Sys, e: Event, code: Code)
    requires Enabled(s, e) && (code in s.rows ==> code in s.requested)
    ensures ComesAndGoes(s, e, Step(s, e), code)
    ensures code in s.rows && code in Step(s, e).rows ==> Changes(s, e, s.rows[code], Step(s, e).rows[code], code)
  {
    hide Parse, ToString;
  }

  /** In every run this is all that ever happens to a row. */
  lemma RowsFollow(events: seq<Event>, trace: seq<Sys>, k: nat, code: Code)
    requires IsRun(events, trace) && k < |events|
    ensures var s, t := trace[k], trace[k + 1];
            && ComesAndGoes(s, events[k], t, code)
            && (code in s.rows && code in t.rows ==> Changes(s, events[k], s.rows[code], t.rows[code], code))
  {
    RunKeeps(events, trace, k);
    assert Enabled(trace[k], events[k]) && trace[k + 1] == Step(trace[k], events[k]);
    hide Parse, Step, Enabled, ComesAndGoes, Changes;
    if code in trace[k].rows { assert RowOk(trace[k], code, trace[k].rows[code]); }
    RowStep(trace[k], events[k], code);
  }

  /** The code was denied: nobody has approved it, and nobody can any more. */
  predicate Lost(s: Sys, code: Code)
  {
    code in s.requested && code !in s.approvals && (code in s.rows ==> s.rows[code].denied && !s.rows[code].authorized)
  }

  lemma LostStays(s: Sys, e: Event, code: Code)
    requires Enabled(s, e) && Lost(s, code)
    ensures Lost(Step(s, e), code)
  {
    hide Parse, ToString;
  }

  lemma {:induction false} DeniedIsLost(events: seq<Event>, trace: seq<Sys>, k: nat, later: nat, code: Code)
    requires IsRun(events, trace) && k <= later < |trace| && code in trace[k].rows && trace[k].rows[code].denied
    ensures Lost(trace[later], code)
  {
    hide Enabled, Step, Lost, RowOk;
    if later > k {
      DeniedIsLost(events, trace, k, later - 1, code);
      LostStays(trace[later - 1], events[later - 1], code);
    } else {
      RunKeeps(events, trace, k);
      DeniedRowIsLost(trace[k], code);
    }
  }

  lemma DeniedRowIsLost(s: Sys, code: Code)
    requires Inv(s) && code in s.rows && s.rows[code].denied
    ensures Lost(s, code)
  {
    assert RowOk(s, code, s.rows[code]);
  }

  /** A code that a user has denied gives no token in the whole run. */
  lemma DeniedGivesNoToken(events: seq<Event>, trace: seq<Sys>, k: nat, later: nat, code: Code)
    requires IsRun(events, trace) && k <= later < |trace| && code in trace[k].rows && trace[k].rows[code].denied
    ensures forall i | 0 <= i < |trace[later].tokens| :: trace[later].tokens[i].code != code
  {
    DeniedIsLost(events, trace, k, later, code);
    RunKeeps(events, trace, later);
    forall i | 0 <= i < |trace[later].tokens| ensures trace[later].tokens[i].code != code {
      assert TokenOk(trace[later], trace[later].tokens[i]);
    }
  }

  // ---- How often a code is redeemed ----

  predicate Redeeming(h: Handler, code: Code)
  {
    (h.Polled? || h.Loaded? || h.Consumed?) && h.code == code
  }

  /** Token handlers of one code run one after another. */
  predicate Exclusive(s: Sys, e: Event)
  {
    e.Poll? ==> forall id | id in s.handlers :: !Redeeming(s.handlers[id], e.code)
  }

  predicate IsExclusiveRun(events: seq<Event>, trace: seq<Sys>)
  {
    IsRun(events, trace) && forall i | 0 <= i < |events| :: Exclusive(trace[i], events[i])
  }

  /** A code that gave a token, or is about to, has no row any more, and at most one handler is redeeming a code. */
  predicate Spent(s: Sys, code: Code)
  {
    code in s.requested && code !in s.rows
  }

  predicate OnceInv(s: Sys)
  {
    && (forall c | c in s.rows :: c in s.requested)
    && (forall i | 0 <= i < |s.tokens| :: Spent(s, s.tokens[i].code))
    && (forall i, j | 0 <= i < j < |s.tokens| :: s.tokens[i].code != s.tokens[j].code)
    && (forall id | id in s.handlers :: s.handlers[id].Consumed? ==> Spent(s, s.handlers[id].code))
    && (forall id | id in s.handlers :: Redeeming(s.handlers[id], s.handlers[id].code) ==>
          s.handlers[id].code in s.requested && Untaken(s, s.handlers[id].code))
    && (forall a, b | a in s.handlers && b in s.handlers && a != b ::
          !(Redeeming(s.handlers[a], s.handlers[a].code) && Redeeming(s.handlers[b], s.handlers[a].code)))
  }

  predicate Untaken(s: Sys, code: Code)
  {
    forall i | 0 <= i < |s.tokens| :: s.tokens[i].code != code
  }

  /** Steps that neither redeem nor add a row. */
  predicate Quiet(s: Sys, t: Sys)
  {
    && t.tokens == s.tokens && t.requested == s.requested && t.rows.Keys <= s.rows.Keys
    && (forall id | id in t.handlers && Redeeming(t.handlers[id], t.handlers[id].code) ::
          id in s.handlers && t.handlers[id] == s.handlers[id])
  }

  lemma QuietOnce(s: Sys, t: Sys)
    requires OnceInv(s) && Quiet(s, t)
    ensures OnceInv(t)
  {
    forall i | 0 <= i < |t.tokens| ensures Spent(t, t.tokens[i].code) {
      assert Spent(s, s.tokens[i].code);
    }
  }

  lemma QuietAdvance(s: Sys, id: nat)
    requires id in s.handlers && (s.handlers[id].Approving? || s.handlers[id].Denying?)
    ensures Quiet(s, Advance(s, id))
  {
  }

  /** The redeeming handler `id` goes on with its code or ends, and deletes the row before it counts as consumed. */
  predicate GoesOn(s: Sys, id: nat, t: Sys)
    requires id in s.handlers
  {
    && t.tokens == s.tokens && t.requested == s.requested && t.rows.Keys <= s.rows.Keys
    && (forall a | a in t.handlers && a != id :: a in s.handlers && t.handlers[a] == s.handlers[a])
    && (id in t.handlers ==> Redeeming(t.handlers[id], s.handlers[id].code)
                             && (t.handlers[id].Consumed? ==> s.handlers[id].code !in t.rows))
  }

  lemma RedeemerGoesOn(s: Sys, id: nat)
    requires id in s.handlers && (s.handlers[id].Polled? || s.handlers[id].Loaded?)
    ensures GoesOn(s, id, Advance(s, id))
  {
    hide Parse;
  }

  lemma OnceAdvance(s: Sys, id: nat, t: Sys)
    requires OnceInv(s) && id in s.handlers && Redeeming(s.handlers[id], s.handlers[id].code) && GoesOn(s, id, t)
    ensures OnceInv(t)
  {
    forall i | 0 <= i < |t.tokens| ensures Spent(t, t.tokens[i].code) {
      assert Spent(s, s.tokens[i].code);
    }
    forall a | a in t.handlers && Redeeming(t.handlers[a], t.handlers[a].code)
      ensures t.handlers[a].code in t.requested && Untaken(t, t.handlers[a].code) {
      assert Redeeming(s.handlers[a], s.handlers[a].code);
    }
  }

  lemma OnceIssue(s: Sys, id: nat)
    requires OnceInv(s) && id in s.handlers && s.handlers[id].Consumed?
    ensures OnceInv(Advance(s, id))
  {
    var t, h, code := Advance(s, id), s.handlers[id], s.handlers[id].code;
    assert t == Without(s, id) ||
        t == Without(s, id).(tokens := s.tokens + [Token(code, h.user, h.owner, h.scopes, h.removed)]);
    hide Advance;
    assert Redeeming(s.handlers[id], code);
    forall i | 0 <= i < |s.tokens| ensures s.tokens[i].code != code && Spent(t, s.tokens[i].code) {
      assert Spent(s, s.tokens[i].code) && Untaken(s, code);
    }
    forall a | a in t.handlers && Redeeming(t.handlers[a], t.handlers[a].code)
      ensures t.handlers[a].code in t.requested && Untaken(t, t.handlers[a].code) {
      assert Redeeming(s.handlers[a], s.handlers[a].code) && Untaken(s, s.handlers[a].code);
      assert !Redeeming(s.handlers[id], s.handlers[a].code);
    }
  }

  lemma OncePoll(s: Sys, e: Event)
    requires OnceInv(s) && e.Poll? && Enabled(s, e) && Exclusive(s, e)
    ensures OnceInv(Step(s, e))
  {
    var t := Step(s, e);
    forall i | 0 <= i < |t.tokens| ensures t.tokens[i].code != e.code && Spent(t, t.tokens[i].code) {
      assert Spent(s, s.tokens[i].code);
    }
    assert Untaken(t, e.code);
    forall a | a in s.handlers && Redeeming(s.handlers[a], s.handlers[a].code)
      ensures s.handlers[a].code != e.code && Untaken(t, s.handlers[a].code) {
      assert !Redeeming(s.handlers[a], e.code);
    }
  }

  lemma OnceRequest(s: Sys, e: Event)
    requires OnceInv(s) && e.Request? && Enabled(s, e)
    ensures OnceInv(Step(s, e))
  {
    hide Parse;
    var t := Step(s, e);
    forall i | 0 <= i < |t.tokens| ensures Spent(t, t.tokens[i].code) {
      assert Spent(s, s.tokens[i].code);
    }
  }

  lemma OnceStep(s: Sys, e: Event)
    requires OnceInv(s) && Enabled(s, e) && Exclusive(s, e)
    ensures OnceInv(Step(s, e))
  {
    hide OnceInv, Parse, Exclusive;
    match e
    case Request(code, scopes, expiresAt) => OnceRequest(s, e);
    case Poll(id, code, now) => OncePoll(s, e);
    case Continue(id) =>
      hide Advance;
      if s.handlers[id].Approving? || s.handlers[id].Denying? {
        QuietAdvance(s, id);
        QuietOnce(s, Advance(s, id));
      } else if s.handlers[id].Consumed? {
        OnceIssue(s, id);
      } else {
        RedeemerGoesOn(s, id);
        OnceAdvance(s, id, Advance(s, id));
      }
    case _ => QuietOnce(s, Step(s, e));
  }

  lemma {:induction false} OnceRun(events: seq<Event>, trace: seq<Sys>, k: nat)
    requires IsExclusiveRun(events, trace) && k < |trace|
    ensures OnceInv(trace[k])
  {
    hide Enabled, Step, OnceInv, Exclusive;
    if k > 0 {
      OnceRun(events, trace, k - 1);
      OnceStep(trace[k - 1], events[k - 1]);
    } else {
      NothingRedeemed();
    }
  }

  lemma NothingRedeemed()
    ensures OnceInv(Start())
  {
  }

  /** When the token handlers of each code run one after another, no code gives more than one token. */
  lemma OneTokenPerCode(events: seq<Event>, trace: seq<Sys>, k: nat, i: nat, j: nat)
    requires IsExclusiveRun(events, trace) && k < |trace| && i < j < |trace[k].tokens|
    ensures trace[k].tokens[i].code != trace[k].tokens[j].code
  {
    OnceRun(events, trace, k);
  }

  // ---- Whose delete removed the row ----

  /** A handler or a token that stands for the removal of the row of `code`. */
  predicate Claims(h: Handler, code: Code)
  {
    h.Consumed? && h.removed && h.code == code
  }

  predicate Backed(t: Token, code: Code)
  {
    t.removed && t.code == code
  }

  predicate CountInv(s: Sys)
  {
    && (forall c | c in s.rows :: c in s.requested)
    && (forall i | 0 <= i < |s.tokens| && s.tokens[i].removed :: Spent(s, s.tokens[i].code))
    && (forall id | id in s.handlers && Claims(s.handlers[id], s.handlers[id].code) :: Spent(s, s.handlers[id].code))
    && (forall i, j | 0 <= i < j < |s.tokens| :: !(s.tokens[i].removed && Backed(s.tokens[j], s.tokens[i].code)))
    && (forall id, i | id in s.handlers && 0 <= i < |s.tokens| ::
          !(s.tokens[i].removed && Claims(s.handlers[id], s.tokens[i].code)))
    && (forall a, b | a in s.handlers && b in s.handlers && a != b ::
          !(Claims(s.handlers[a], s.handlers[a].code) && Claims(s.handlers[b], s.handlers[a].code)))
  }

  /** Steps that neither remove an approved row for a handler nor make a token. */
  predicate Idle(s: Sys, t: Sys)
  {
    && t.tokens == s.tokens
    && (forall c | c in s.requested :: c in t.requested && (c in t.rows ==> c in s.rows))
    && (forall c | c in t.rows :: c in t.requested)
    && (forall id | id in t.handlers && Claims(t.handlers[id], t.handlers[id].code) ::
          id in s.handlers && t.handlers[id] == s.handlers[id])
  }

  lemma IdleKeepsCount(s: Sys, t: Sys)
    requires CountInv(s) && Idle(s, t)
    ensures CountInv(t)
  {
    forall i | 0 <= i < |t.tokens| && t.tokens[i].removed ensures Spent(t, t.tokens[i].code) {
      assert Spent(s, s.tokens[i].code);
    }
    forall id | id in t.handlers && Claims(t.handlers[id], t.handlers[id].code) ensures Spent(t, t.handlers[id].code) {
      assert Spent(s, s.handlers[id].code);
    }
  }

  lemma IdleStep(s: Sys, e: Event)
    requires CountInv(s) && Enabled(s, e)
    requires e.Continue? ==> !s.handlers[e.id].Loaded? && !s.handlers[e.id].Consumed?
    ensures Idle(s, Step(s, e))
  {
    hide Parse, Advance;
    if e.Continue? { IdleAdvance(s, e.id); hide Idle; }
  }

  lemma IdleAdvance(s: Sys, id: nat)
    requires CountInv(s) && id in s.handlers && !s.handlers[id].Loaded? && !s.handlers[id].Consumed?
    ensures Idle(s, Advance(s, id))
  {
    hide Parse, ToString;
  }

  lemma DeleteKeepsCount(s: Sys, id: nat)
    requires CountInv(s) && id in s.handlers && s.handlers[id].Loaded?
    ensures CountInv(Advance(s, id))
  {
    var t, code := Advance(s, id), s.handlers[id].code;
    forall i | 0 <= i < |t.tokens| && t.tokens[i].removed ensures Spent(t, t.tokens[i].code) {
      assert Spent(s, s.tokens[i].code);
    }
    forall a | a in t.handlers && Claims(t.handlers[a], t.handlers[a].code)
      ensures Spent(t, t.handlers[a].code) && (a != id ==> s.handlers[a].code != code || code !in s.rows)
    {
      if a != id { assert Spent(s, s.handlers[a].code); }
    }
  }

  lemma IssueKeepsCount(s: Sys, id: nat)
    requires CountInv(s) && id in s.handlers && s.handlers[id].Consumed?
    ensures CountInv(Advance(s, id))
  {
    var t, h := Advance(s, id), s.handlers[id];
    assert t == Without(s, id) ||
        t == Without(s, id).(tokens := s.tokens + [Token(h.code, h.user, h.owner, h.scopes, h.removed)]);
    hide Advance;
    if h.removed { assert Claims(h, h.code) && Spent(s, h.code); }
    forall i | 0 <= i < |t.tokens| && t.tokens[i].removed ensures Spent(t, t.tokens[i].code) {
      if i < |s.tokens| { assert Spent(s, s.tokens[i].code); }
    }
    forall a | a in t.handlers && Claims(t.handlers[a], t.handlers[a].code) ensures Spent(t, t.handlers[a].code) {
      assert Spent(s, s.handlers[a].code);
    }
  }

  lemma CountStep(s: Sys, e: Event)
    requires CountInv(s) && Enabled(s, e)
    ensures CountInv(Step(s, e))
  {
    hide CountInv, Idle, Advance, Parse;
    if e.Continue? && s.handlers[e.id].Loaded? {
      DeleteKeepsCount(s, e.id);
    } else if e.Continue? && s.handlers[e.id].Consumed? {
      IssueKeepsCount(s, e.id);
    } else {
      IdleStep(s, e);
      IdleKeepsCount(s, Step(s, e));
    }
  }

  lemma {:induction false} CountRun(events: seq<Event>, trace: seq<Sys>, k: nat)
    requires IsRun(events, trace) && k < |trace|
    ensures CountInv(trace[k])
  {
    hide Enabled, Step, CountInv;
    if k > 0 {
      CountRun(events, trace, k - 1);
      CountStep(trace[k - 1], events[k - 1]);
    } else {
      NothingRemoved();
    }
  }

  lemma NothingRemoved()
    ensures CountInv(Start())
  {
  }

  /** In every interleaving, at most one token of a code comes from a handler whose delete removed the row: of two
      tokens, one was made although a delete had reported no row. */
  lemma OneRemovalPerCode(events: seq<Event>, trace: seq<Sys>, k: nat, i: nat, j: nat)
    requires IsRun(events, trace) && k < |trace| && i < j < |trace[k].tokens|
    requires trace[k].tokens[i].code == trace[k].tokens[j].code
    ensures !trace[k].tokens[i].removed || !trace[k].tokens[j].removed
  {
    CountRun(events, trace, k);
    assert !Backed(trace[k].tokens[j], trace[k].tokens[i].code) || !trace[k].tokens[i].removed;
  }

  // ---- Two handlers of one code ----

  predicate Reaches(events: seq<Event>, trace: seq<Sys>, s: Sys)
  {
    IsRun(events, trace) && trace[|events|] == s
  }

  lemma Then(events: seq<Event>, trace: seq<Sys>, s: Sys, e: Event, t: Sys) returns (more: seq<Event>, longer: seq<Sys>)
    requires Reaches(events, trace, s) && Enabled(s, e) && t == Step(s, e)
    ensures Reaches(more, longer, t) && more == events + [e] && longer == trace + [t]
  {
    hide Enabled, Step;
    more, longer := events + [e], trace + [t];
    forall i | 0 <= i < |more| ensures Enabled(longer[i], more[i]) && longer[i + 1] == Step(longer[i], more[i]) {
      if i < |events| {
        assert longer[i] == trace[i] && longer[i + 1] == trace[i + 1] && more[i] == events[i];
      }
    }
  }

  /** Code `c`, requested and approved with the scopes `m` by user `u`, who had them then and has the scopes `o` now. */
  function Approved(c: Code, u: UserId, o: Mask, m: Mask, handlers: map<nat, Handler>, tokens: seq<Token>,
                    gone: bool): Sys
  {
    Sys(if gone then map[] else map[c := Row(9, ToString(m), Some(u), true, false)], map[u := o], handlers, tokens,
        map[c := m], map[c := Approval(u, m)])
  }

  /** Before the approval. */
  function Requested(c: Code, u: UserId, m: Mask): Sys
  {
    Sys(map[c := Row(9, ToString(m), None, false, false)], map[u := m], map[], [], map[c := m], map[])
  }

  lemma RequestRun(c: Code, u: UserId, m: Mask) returns (events: seq<Event>, trace: seq<Sys>)
    requires Parse(ToString(m)) == Some(m)
    ensures Reaches(events, trace, Requested(c, u, m))
  {
    hide Parse, ToString, IsRun;
    var s1 := Requested(c, u, m).(users := map[]);
    NothingHappened();
    events, trace := Then([], [Start()], Start(), Request(c, ToString(m), 9), s1);
    events, trace := Then(events, trace, s1, SetUser(u, Some(m)), Requested(c, u, m));
  }

  lemma ApprovalRun(c: Code, u: UserId, o: Mask, m: Mask) returns (events: seq<Event>, trace: seq<Sys>)
    requires Parse(ToString(m)) == Some(m)
    ensures Reaches(events, trace, Approved(c, u, o, m, map[], [], false))
  {
    hide Parse, ToString, IsRun;
    var s2 := Requested(c, u, m);
    events, trace := RequestRun(c, u, m);
    assert m * m == m;
    var s3 := s2.(handlers := map[2 := Approving(c, u, m, m)]);
    events, trace := Then(events, trace, s2, StartApproval(2, c, u, m, 5), s3);
    assert s3.handlers - {2} == map[];
    var s4 := Approved(c, u, m, m, map[], [], false);
    events, trace := Then(events, trace, s3, Continue(2), s4);
    events, trace := Then(events, trace, s4, SetUser(u, Some(o)), Approved(c, u, o, m, map[], [], false));
  }

  lemma NothingHappened()
    ensures Reaches([], [Start()], Start())
  {
  }

  /** Two polls read the approved row, and both handlers load its user. */
  lemma TwoPolls(c: Code, u: UserId, o: Mask, m: Mask) returns (events: seq<Event>, trace: seq<Sys>)
    requires Parse(ToString(m)) == Some(m)
    ensures var h := Loaded(c, u, o, o * m);
            Reaches(events, trace, Approved(c, u, o, m, map[3 := h, 4 := h], [], false))
  {
    hide Parse, ToString, IsRun;
    events, trace := ApprovalRun(c, u, o, m);
    var polled, loaded := Polled(c, Row(9, ToString(m), Some(u), true, false)), Loaded(c, u, o, o * m);
    var s0 := Approved(c, u, o, m, map[], [], false);
    var s1 := s0.(handlers := map[3 := polled]);
    events, trace := Then(events, trace, s0, Poll(3, c, 5), s1);
    var s2 := s0.(handlers := map[3 := polled, 4 := polled]);
    events, trace := Then(events, trace, s1, Poll(4, c, 5), s2);
    var s3 := s0.(handlers := map[3 := loaded, 4 := polled]);
    events, trace := Then(events, trace, s2, Continue(3), s3);
    events, trace := Then(events, trace, s3, Continue(4), s0.(handlers := map[3 := loaded, 4 := loaded]));
  }

  /** Both handlers delete the row, one of them or both when it is gone already, which is not an error. */
  lemma TwoDeletes(c: Code, u: UserId, o: Mask, m: Mask, gone: bool, before: seq<Event>, past: seq<Sys>)
    returns (events: seq<Event>, trace: seq<Sys>)
    requires var h := Loaded(c, u, o, o * m);
             Reaches(before, past, Approved(c, u, o, m, map[3 := h, 4 := h], [], gone))
    ensures var first, second := Consumed(c, u, o, o * m, !gone), Consumed(c, u, o, o * m, false);
            Reaches(events, trace, Approved(c, u, o, m, map[3 := first, 4 := second], [], true))
  {
    hide Parse, ToString, IsRun;
    var h, first, second := Loaded(c, u, o, o * m), Consumed(c, u, o, o * m, !gone), Consumed(c, u, o, o * m, false);
    var s1 := Approved(c, u, o, m, map[3 := first, 4 := h], [], true);
    events, trace := Then(before, past, Approved(c, u, o, m, map[3 := h, 4 := h], [], gone), Continue(3), s1);
    events, trace := Then(events, trace, s1, Continue(4), Approved(c, u, o, m, map[3 := first, 4 := second], [], true));
  }

  /** Nothing keeps either handler from making its token then. */
  lemma TwoTokens(c: Code, u: UserId, o: Mask, m: Mask, gone: bool, before: seq<Event>, past: seq<Sys>)
    returns (events: seq<Event>, trace: seq<Sys>)
    requires var h := Loaded(c, u, o, o * m);
             Reaches(before, past, Approved(c, u, o, m, map[3 := h, 4 := h], [], gone))
    ensures var t1, t2 := Token(c, u, o, o * m, !gone), Token(c, u, o, o * m, false);
            Reaches(events, trace, Approved(c, u, o, m, map[], [t1, t2], true))
  {
    hide Parse, ToString, IsRun;
    var first, second := Consumed(c, u, o, o * m, !gone), Consumed(c, u, o, o * m, false);
    var t1, t2 := Token(c, u, o, o * m, !gone), Token(c, u, o, o * m, false);
    events, trace := TwoDeletes(c, u, o, m, gone, before, past);
    assert o * m * o == o * m;
    var s2, s3 := Approved(c, u, o, m, map[3 := first, 4 := second], [], true),
                  Approved(c, u, o, m, map[4 := second], [t1], true);
    events, trace := Then(events, trace, s2, Continue(3), s3);
    assert [t1] + [t2] == [t1, t2];
    events, trace := Then(events, trace, s3, Continue(4), Approved(c, u, o, m, map[], [t1, t2], true));
  }

  /** Two polls read the approved row before either handler deletes it; so both handlers give a token, the second one
      although its delete removed nothing. */
  lemma RacingHandlersGiveTwoTokens(c: Code, u: UserId, o: Mask, m: Mask) returns (events: seq<Event>, trace: seq<Sys>)
    requires Proper(m) && m != {}
    ensures Reaches(events, trace, Approved(c, u, o, m, map[],
                    [Token(c, u, o, o * m, true), Token(c, u, o, o * m, false)], true))
  {
    TextRoundTrip(m);
    hide Parse, ToString, IsRun, Proper;
    events, trace := TwoPolls(c, u, o, m);
    events, trace := TwoTokens(c, u, o, m, false, events, trace);
  }

  // ---- Heeding the row count ----

  /** A server may refuse tokens by any rule on what its handler knows in the end. */
  predicate Heeded(s: Sys, rule: Token -> bool)
  {
    forall i | 0 <= i < |s.tokens| :: rule(s.tokens[i])
  }

  predicate OnePerCode(s: Sys)
  {
    forall i, j | 0 <= i < j < |s.tokens| :: s.tokens[i].code != s.tokens[j].code
  }

  ghost predicate Single(rule: Token -> bool)
  {
    forall events: seq<Event>, trace: seq<Sys>, k: nat |
        IsRun(events, trace) && k < |trace| && Heeded(trace[k], rule) ::
      OnePerCode(trace[k])
  }

  /** Some run gives this token. */
  ghost predicate Issued(t: Token)
  {
    exists events: seq<Event>, trace: seq<Sys>, k: nat, i: nat ::
      IsRun(events, trace) && k < |trace| && i < |trace[k].tokens| && trace[k].tokens[i] == t
  }

  /** The rule admits no token whose handler's delete removed nothing. */
  ghost predicate HeedsCount(rule: Token -> bool)
  {
    forall t | Issued(t) && rule(t) :: t.removed
  }

  /** What is granted is what is left of some printable mask. */
  ghost predicate Meets(owner: Mask, scopes: Mask)
  {
    exists m :: Proper(m) && m != {} && scopes == owner * m
  }

  ghost predicate MeetInv(s: Sys)
  {
    && (forall id | id in s.handlers && KnowsOwner(s.handlers[id]) ::
        Meets(s.handlers[id].owner, s.handlers[id].scopes))
    && (forall i | 0 <= i < |s.tokens| :: Meets(s.tokens[i].owner, s.tokens[i].scopes))
  }

  lemma MeetAdvance(s: Sys, id: nat)
    requires id in s.handlers && MeetInv(s)
    ensures MeetInv(Advance(s, id))
  {
    hide Parse, ToString, Proper, Authorize, Deny;
    var h := s.handlers[id];
    if h.Polled? && h.row.userId.Some? && h.row.userId.value in s.users && Parse(h.row.scopes).Some? {
      TextRoundTrip({});
      ParsedIsNotEmpty(h.row.scopes);
      assert Meets(s.users[h.row.userId.value], s.users[h.row.userId.value] * Parse(h.row.scopes).value);
    }
    hide Meets;
  }

  lemma MeetStep(s: Sys, e: Event)
    requires Enabled(s, e) && MeetInv(s)
    ensures MeetInv(Step(s, e))
  {
    hide Parse, Meets, DeleteExpired, Advance;
    if e.Continue? { MeetAdvance(s, e.id); hide MeetInv; }
  }

  lemma {:induction false} MeetRun(events: seq<Event>, trace: seq<Sys>, k: nat)
    requires IsRun(events, trace) && k < |trace|
    ensures MeetInv(trace[k])
  {
    hide Enabled, Step, Meets;
    if k > 0 {
      MeetRun(events, trace, k - 1);
      MeetStep(trace[k - 1], events[k - 1]);
    }
  }

  /** Any token that can be made after a vain delete can be made twice: the row expires before either delete. */
  lemma TwiceAfterVainDeletes(c: Code, u: UserId, o: Mask, m: Mask) returns (events: seq<Event>, trace: seq<Sys>)
    requires Parse(ToString(m)) == Some(m)
    ensures var t := Token(c, u, o, o * m, false);
            Reaches(events, trace, Approved(c, u, o, m, map[], [t, t], true))
  {
    hide Parse, ToString, IsRun;
    var h := Loaded(c, u, o, o * m);
    events, trace := TwoPolls(c, u, o, m);
    events, trace := Then(events, trace, Approved(c, u, o, m, map[3 := h, 4 := h], [], false), Expire(10),
                          Approved(c, u, o, m, map[3 := h, 4 := h], [], true));
    events, trace := TwoTokens(c, u, o, m, true, events, trace);
  }

  lemma UnheededIsUnsafe(rule: Token -> bool, t: Token)
    requires Issued(t) && rule(t) && !t.removed
    ensures !Single(rule)
  {
    hide IsRun, Parse, ToString, Proper;
    var runEvents: seq<Event>, runTrace: seq<Sys>, k: nat, i: nat :|
      IsRun(runEvents, runTrace) && k < |runTrace| && i < |runTrace[k].tokens| && runTrace[k].tokens[i] == t;
    MeetRun(runEvents, runTrace, k);
    var m :| Proper(m) && m != {} && t.scopes == t.owner * m;
    TextRoundTrip(m);
    var events, trace := TwiceAfterVainDeletes(t.code, t.user, t.owner, m);
    FinalState(events, trace);
    var s := trace[|events|];
    assert s.tokens == [t, t] && s.tokens[0].code == s.tokens[1].code;
    assert Heeded(s, rule) && !OnePerCode(s);
  }

  /** A rule for refusing tokens makes every interleaving give at most one token per code if and only if it refuses each
      token that is to be made after a delete that removed no row; the code has no such rule. */
  lemma SingleIffHeeded(rule: Token -> bool)
    ensures Single(rule) <==> HeedsCount(rule)
  {
    hide IsRun;
    if HeedsCount(rule) {
      forall events: seq<Event>, trace: seq<Sys>, k: nat | IsRun(events, trace) && k < |trace| && Heeded(trace[k], rule)
        ensures OnePerCode(trace[k])
      {
        forall i, j | 0 <= i < j < |trace[k].tokens| ensures trace[k].tokens[i].code != trace[k].tokens[j].code {
          assert Issued(trace[k].tokens[i]) && Issued(trace[k].tokens[j]);
          if trace[k].tokens[i].code == trace[k].tokens[j].code { OneRemovalPerCode(events, trace, k, i, j); }
        }
      }
    } else {
      var t :| Issued(t) && rule(t) && !t.removed;
      UnheededIsUnsafe(rule, t);
    }
  }

  lemma FinalState(events: seq<Event>, trace: seq<Sys>)
    requires exists s :: Reaches(events, trace, s)
    ensures IsRun(events, trace) && |events| < |trace|
  {
  }

  // ---- A token for nothing ----

  /** The user's scopes change after the approval to ones that have nothing in common with what was granted: the device
      gets a token all the same, and what is stored for it never reads back. */
  lemma EmptyTokenIsStored(c: Code, u: UserId, o: Mask, m: Mask) returns (events: seq<Event>, trace: seq<Sys>)
    requires Proper(m) && m != {} && o * m == {}
    ensures Reaches(events, trace, Approved(c, u, o, m, map[], [Token(c, u, o, {}, true)], true))
    ensures Parse(ToString({})) == None
  {
    TextRoundTrip(m);
    EmptyTextIsRefused();
    hide Parse, ToString, IsRun, Proper;
    events, trace := ApprovalRun(c, u, o, m);
    var s0, s4 := Approved(c, u, o, m, map[], [], false), Approved(c, u, o, m, map[], [], true);
    var s1 := s0.(handlers := map[3 := Polled(c, Row(9, ToString(m), Some(u), true, false))]);
    events, trace := Then(events, trace, s0, Poll(3, c, 5), s1);
    var s2 := s0.(handlers := map[3 := Loaded(c, u, o, {})]);
    events, trace := Then(events, trace, s1, Continue(3), s2);
    var s3 := s4.(handlers := map[3 := Consumed(c, u, o, {}, true)]);
    events, trace := Then(events, trace, s2, Continue(3), s3);
    assert {} * o == {};
    events, trace := Then(events, trace, s3, Continue(3), s4.(tokens := [Token(c, u, o, {}, true)]));
  }

  // ---- The handlers as code ----

  datatype Response = InvalidGrant | AccessDenied | AuthorizationPending | ServerError | Granted(scopes: Mask)

  class DeviceFlowStore {
    var rows: Rows
    var users: map<UserId, Mask>
    var tokens: seq<(UserId, Mask)>

    constructor ()
      ensures rows == map[] && users == map[] && tokens == []
    {
      rows, users, tokens := map[], map[], [];
    }

    method ApproveAuthorization(code: Code, user: UserId, scopes: Mask)
      modifies this`rows
      ensures rows == if code in old(rows) && !old(rows)[code].authorized && !old(rows)[code].denied then
                        old(rows)[code := Row(old(rows)[code].expiresAt, ToString(scopes), Some(user), true, false)]
                      else old(rows)
    {
      if code in rows && !rows[code].authorized && !rows[code].denied {
        rows := rows[code := Row(rows[code].expiresAt, ToString(scopes), Some(user), true, false)];
      }
    }

    method DenyDeviceAuth(code: Code)
      modifies this`rows
      ensures rows == if code in old(rows) && !old(rows)[code].authorized && !old(rows)[code].denied then
                        old(rows)[code := old(rows)[code].(denied := true)]
                      else old(rows)
    {
      if code in rows && !rows[code].authorized && !rows[code].denied {
        rows := rows[code := rows[code].(denied := true)];
      }
    }

    /** The device asks for its token. A redeemed code's row is gone before the token is made, so that a failure in
        between (`lifetimeOk`) loses the authorization rather than leaving it to be used again; the token's scopes are
        those that the row still grants and its owner now has. */
    method DeviceToken(code: Code, now: int, lifetimeOk: bool) returns (r: Response)
      modifies this`rows, this`tokens
      ensures var live := code in old(rows) && old(rows)[code].expiresAt >= now;
              var owned := live && old(rows)[code].userId.Some? && old(rows)[code].userId.value in users;
              var decided := live && old(rows)[code].authorized && !old(rows)[code].denied;
              var works := live && lifetimeOk && Parse(old(rows)[code].scopes).Some?;
              && (r == InvalidGrant <==> !live || (decided && !owned))
              && (r == AccessDenied <==> live && old(rows)[code].denied)
              && (r == AuthorizationPending <==> live && !old(rows)[code].authorized && !old(rows)[code].denied)
              && (r == ServerError <==> decided && owned && !works)
              && (r.Granted? <==> decided && owned && works)
      ensures rows == if r.Granted? || (r == ServerError && Parse(old(rows)[code].scopes).Some?) then old(rows) - {code}
                      else old(rows)
      ensures r.Granted? ==> r.scopes == users[old(rows)[code].userId.value] * Parse(old(rows)[code].scopes).value
      ensures tokens == if r.Granted? then old(tokens) + [(old(rows)[code].userId.value, r.scopes)] else old(tokens)
    {
      if code !in rows || rows[code].expiresAt < now {
        return InvalidGrant;
      }
      var auth := rows[code];
      if auth.denied {
        return AccessDenied;
      }
      if !auth.authorized {
        return AuthorizationPending;
      }
      if auth.userId.None? || auth.userId.value !in users {
        return InvalidGrant;
      }
      var parsed := Parse(auth.scopes);
      if parsed.None? {
        return ServerError;
      }
      var scopes := users[auth.userId.value] * parsed.value;
      rows := rows - {code};
      if scopes * users[auth.userId.value] != scopes || !lifetimeOk {
        return ServerError;
      }
      tokens := tokens + [(auth.userId.value, scopes)];
      return Granted(scopes);
    }

    /** Handlers that run one after the other: a code that was redeemed gives no second token. */
    method RedeemTwice(code: Code, now: int, later: int, lifetimeOk: bool) returns (first: Response, second: Response)
      modifies this`rows, this`tokens
      ensures first.Granted? ==> second == InvalidGrant && |tokens| == |old(tokens)| + 1
    {
      first := DeviceToken(code, now, lifetimeOk);
      ghost var redeemed := tokens;
      second := DeviceToken(code, later, lifetimeOk);
      assert first.Granted? ==> code !in old(rows) - {code};
    }
  }
}
