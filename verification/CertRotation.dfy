/** Device certificates: the certificate stored for each device, the ledger of certificates that were rotated away, and
    requests that read the stored certificate some time before they rotate it. A certificate stands for its own hash. */
module CertRotation {
  import opened TextLines

  /** `owner` is the common name, which is the device's uuid. */
  datatype Cert<U> = Cert(owner: U, notAfter: int, body: int)

  datatype Ledger<U(==)> = Ledger(stored: map<U, Cert<U>>, oldCerts: map<Cert<U>, int>)

  /** A rotation that took effect, and the certificate it replaced. */
  datatype Rotation<U> = Rotation(current: Cert<U>, next: Cert<U>, replaced: Cert<U>, at: int)

  function Later(a: int, b: int): int
  {
    if a < b then b else a
  }

  function Rotate<U(==)>(l: Ledger<U>, uuid: U, current: Cert<U>, next: Cert<U>, now: int): Ledger<U>
  {
    Ledger(if uuid in l.stored then l.stored[uuid := next] else l.stored,
           l.oldCerts[current := Later(current.notAfter, now)])
  }

  function Collect<U>(l: Ledger<U>, now: int): Ledger<U>
  {
    l.(oldCerts := map c | c in l.oldCerts && l.oldCerts[c] > now :: l.oldCerts[c])
  }

  class CertTables<U(==)> {
    var stored: map<U, Cert<U>>
    var oldCerts: map<Cert<U>, int>

    ghost function State(): Ledger<U>
      reads this
    {
      Ledger(stored, oldCerts)
    }

    constructor ()
      ensures State() == Ledger(map[], map[])
    {
      stored, oldCerts := map[], map[];
    }

    /** Fails when a row for the device exists. */
    method CreateDevice(cert: Cert<U>) returns (ok: bool)
      modifies this
      ensures ok <==> cert.owner !in old(stored)
      ensures State() == if ok then Ledger(old(stored)[cert.owner := cert], old(oldCerts)) else old(State())
    {
      if cert.owner in stored {
        return false;
      }
      stored := stored[cert.owner := cert];
      return true;
    }

    /** Inserts the certificate to retire and stores the next one, or does neither: it works exactly when neither
        certificate was ever retired, as far as the ledger remembers. */
    method RotateCert(uuid: U, current: Cert<U>, next: Cert<U>, now: int) returns (ok: bool)
      modifies this
      ensures ok <==> current !in old(oldCerts) && next !in old(oldCerts)
      ensures State() == if ok then Rotate(old(State()), uuid, current, next, now) else old(State())
      ensures ok ==> stored == if uuid in old(stored) then old(stored)[uuid := next] else old(stored)
      ensures ok ==> oldCerts == old(oldCerts)[current := if current.notAfter < now then now else current.notAfter]
    {
      var expires := current.notAfter;
      if expires < now {
        expires := now;
      }
      var row := if next in oldCerts then next else current;
      if row in oldCerts {
        return false;
      }
      oldCerts := oldCerts[row := expires];
      if uuid in stored {
        stored := stored[uuid := next];
      }
      return true;
    }

    method DeleteExpiredCerts(now: int)
      modifies this
      ensures State() == Collect(old(State()), now) && stored == old(stored)
      ensures forall c :: c in oldCerts <==> c in old(oldCerts) && now < old(oldCerts)[c]
      ensures forall c | c in oldCerts :: oldCerts[c] == old(oldCerts)[c]
    {
      oldCerts := map c | c in oldCerts && oldCerts[c] > now :: oldCerts[c];
    }
  }

  // ---- Interleaved requests ----

  /** A request that presented `cert` and read what was stored for its owner. */
  datatype Request<U> = Request(cert: Cert<U>, seen: Option<Cert<U>>)

  /** `Arrive` is the read; `Finish` is what the request does with what it read, at any later time. */
  datatype Event<U> = Arrive(cert: Cert<U>) | Finish(request: Request<U>) | Gc

  datatype Timed<U> = Timed(now: int, event: Event<U>)

  /** `retired` is history only: every rotation that took effect, in order. */
  datatype Sys<U(==)> = Sys(ledger: Ledger<U>, requests: set<Request<U>>, retired: seq<Rotation<U>>, collected: int)

  function Lookup<U(==)>(l: Ledger<U>, uuid: U): Option<Cert<U>>
  {
    if uuid in l.stored then Some(l.stored[uuid]) else None
  }

  predicate Rotates<U(==)>(l: Ledger<U>, r: Request<U>)
  {
    r.seen.Some? && r.seen.value != r.cert && r.seen.value !in l.oldCerts && r.cert !in l.oldCerts
  }

  function Finished<U(==)>(s: Sys<U>, r: Request<U>, now: int): Sys<U>
  {
    var l, uuid := s.ledger, r.cert.owner;
    if r.seen.None? then
      if uuid in l.stored then s else s.(ledger := l.(stored := l.stored[uuid := r.cert]))
    else if Rotates(l, r) && uuid in l.stored then
      s.(ledger := Rotate(l, uuid, r.seen.value, r.cert, now),
         retired := s.retired + [Rotation(r.seen.value, r.cert, l.stored[uuid], now)])
    else s
  }

  predicate Enabled<U(==)>(s: Sys<U>, e: Event<U>)
  {
    e.Finish? ==> e.request in s.requests
  }

  function Step<U(==)>(s: Sys<U>, t: Timed<U>): Sys<U>
  {
    match t.event
    case Arrive(cert) => s.(requests := s.requests + {Request(cert, Lookup(s.ledger, cert.owner))})
    case Finish(r) => Finished(s, r, t.now).(requests := s.requests - {r})
    case Gc => s.(ledger := Collect(s.ledger, t.now), collected := t.now)
  }

  const BEGINNING := 0

  function Start<U(==)>(): Sys<U>
  {
    Sys(Ledger(map[], map[]), {}, [], BEGINNING)
  }

  function Run<U(==)>(events: seq<Timed<U>>): Sys<U>
  {
    if events == [] then Start() else Step(Run(events[..|events| - 1]), events[|events| - 1])
  }

  function Clock<U>(events: seq<Timed<U>>): int
  {
    if events == [] then BEGINNING else events[|events| - 1].now
  }

  /** Clock readings never go back, and only requests that arrived are finished. */
  predicate Proper<U(==)>(events: seq<Timed<U>>)
  {
    events == [] ||
    var before, t := events[..|events| - 1], events[|events| - 1];
    Proper(before) && Clock(before) <= t.now && Enabled(Run(before), t.event)
  }

  predicate WasRetired<U(==)>(s: Sys<U>, c: Cert<U>)
  {
    exists i :: 0 <= i < |s.retired| && s.retired[i].current == c
  }

  /** Every rotation so far retired a certificate that had not expired. */
  predicate InTime<U(==)>(s: Sys<U>)
  {
    forall i | 0 <= i < |s.retired| :: s.retired[i].at < s.retired[i].current.notAfter
  }

  /** A retired certificate is in the ledger at least until it has expired. */
  predicate Ledgered<U(==)>(s: Sys<U>, r: Rotation<U>, now: int)
  {
    && r.at <= now
    && (if r.current in s.ledger.oldCerts then s.ledger.oldCerts[r.current] >= Later(r.current.notAfter, r.at)
        else Later(r.current.notAfter, r.at) <= s.collected)
  }

  /** What a request once read is still stored, or was rotated away since. */
  predicate Tracked<U(==)>(s: Sys<U>, c: Cert<U>)
  {
    c.owner in s.ledger.stored && (s.ledger.stored[c.owner] == c || WasRetired(s, c))
  }

  ghost predicate Inv<U(!new)>(s: Sys<U>, now: int)
  {
    && s.collected <= now
    && (forall u | u in s.ledger.stored :: s.ledger.stored[u].owner == u && s.ledger.stored[u] !in s.ledger.oldCerts)
    && (forall c | c in s.ledger.oldCerts :: c.owner in s.ledger.stored)
    && (forall i | 0 <= i < |s.retired| :: Ledgered(s, s.retired[i], now))
    && (forall r | r in s.requests && r.seen.Some? ::
        r.seen.value.owner == r.cert.owner && r.cert.owner in s.ledger.stored)
    && (InTime(s) ==> Exact(s))
  }

  /** Every rotation replaced just the certificate its request had read. */
  ghost predicate Exact<U(!new)>(s: Sys<U>)
  {
    && (forall i | 0 <= i < |s.retired| :: s.retired[i].replaced == s.retired[i].current)
    && (forall r | r in s.requests && r.seen.Some? :: Tracked(s, r.seen.value))
  }

  lemma RetiredIsLedgered<U(!new)>(s: Sys<U>, c: Cert<U>, now: int)
    requires Inv(s, now) && WasRetired(s, c) && now < c.notAfter
    ensures c in s.ledger.oldCerts
  {
  }

  lemma StillRetired<U>(s: Sys<U>, t: Sys<U>, c: Cert<U>)
    requires s.retired <= t.retired
    ensures WasRetired(s, c) ==> WasRetired(t, c)
  {
  }

  lemma RotationKeeps<U(!new)>(s: Sys<U>, r: Request<U>, now: int)
    requires Inv(s, now) && r in s.requests
    requires Rotates(s.ledger, r) && r.cert.owner in s.ledger.stored
    ensures Inv(Finished(s, r, now), now)
  {
    var t, n := Finished(s, r, now), |s.retired|;
    var current := r.seen.value;
    assert t.retired[n].current == current && WasRetired(t, current);
    forall i | 0 <= i <= n ensures Ledgered(t, t.retired[i], now) {
      if i < n {
        assert t.retired[i] == s.retired[i];
        assert Ledgered(s, s.retired[i], now);
      }
    }
    if InTime(t) {
      assert InTime(s) by {
        forall i | 0 <= i < n ensures s.retired[i].at < s.retired[i].current.notAfter {
          assert t.retired[i] == s.retired[i];
        }
      }
      assert now < current.notAfter;
      assert Tracked(s, current);
      if WasRetired(s, current) {
        RetiredIsLedgered(s, current, now);
      }
      assert s.ledger.stored[r.cert.owner] == current;
      forall i | 0 <= i <= n ensures t.retired[i].replaced == t.retired[i].current {
        if i < n { assert t.retired[i] == s.retired[i]; }
      }
      forall q | q in t.requests && q.seen.Some? ensures Tracked(t, q.seen.value) {
        assert Tracked(s, q.seen.value);
        StillRetired(s, t, q.seen.value);
      }
    }
  }

  lemma CreationKeeps<U(!new)>(s: Sys<U>, r: Request<U>, now: int)
    requires Inv(s, now) && r in s.requests && r.seen.None?
    ensures Inv(Finished(s, r, now), now)
  {
  }

  lemma ForgettingKeeps<U(!new)>(s: Sys<U>, requests: set<Request<U>>, now: int)
    requires Inv(s, now) && requests <= s.requests
    ensures Inv(s.(requests := requests), now)
  {
  }

  lemma ArrivalKeeps<U(!new)>(s: Sys<U>, cert: Cert<U>, now: int)
    requires Inv(s, now)
    ensures Inv(Step(s, Timed(now, Arrive(cert))), now)
  {
  }

  lemma CollectionKeeps<U(!new)>(s: Sys<U>, now: int)
    requires Inv(s, now)
    ensures Inv(Step(s, Timed(now, Gc)), now)
  {
  }

  lemma TimeKeeps<U(!new)>(s: Sys<U>, was: int, now: int)
    requires Inv(s, was) && was <= now
    ensures Inv(s, now)
  {
  }

  lemma {:induction false} RunKeeps<U(!new)>(events: seq<Timed<U>>)
    requires Proper(events)
    ensures Inv(Run(events), Clock(events))
  {
    hide Inv, Rotates, Rotate, Collect;
    if events == [] {
      StartIsFine<U>();
    } else {
      var before, t := events[..|events| - 1], events[|events| - 1];
      var s := Run(before);
      RunKeeps(before);
      TimeKeeps(s, Clock(before), t.now);
      match t.event
      case Arrive(cert) => ArrivalKeeps(s, cert, t.now);
      case Gc => CollectionKeeps(s, t.now);
      case Finish(r) =>
        if r.seen.None? {
          CreationKeeps(s, r, t.now);
        } else if Rotates(s.ledger, r) && r.cert.owner in s.ledger.stored {
          RotationKeeps(s, r, t.now);
        }
        SameRequests(s, r, t.now);
        ForgettingKeeps(Finished(s, r, t.now), s.requests - {r}, t.now);
    }
  }

  lemma SameRequests<U(!new)>(s: Sys<U>, r: Request<U>, now: int)
    ensures Finished(s, r, now).requests == s.requests
  {
  }

  lemma StartIsFine<U(!new)>()
    ensures Inv(Start<U>(), BEGINNING)
  {
  }

  // ---- What holds in every run ----

  /** No device's stored certificate is ever one that the ledger has retired. */
  lemma StoredIsNotRetired<U(!new)>(events: seq<Timed<U>>, uuid: U)
    requires Proper(events) && uuid in Run(events).ledger.stored
    ensures Run(events).ledger.stored[uuid] !in Run(events).ledger.oldCerts
    ensures Run(events).ledger.stored[uuid].owner == uuid
  {
    RunKeeps(events);
  }

  /** A certificate that was rotated away and has not expired is not stored for any device, and no request can make it
      stored or rotate it away again, in spite of garbage collection. */
  lemma RetiredStaysAway<U(!new)>(events: seq<Timed<U>>, i: nat, now: int)
    requires Proper(events) && i < |Run(events).retired| && Clock(events) <= now
    requires now < Run(events).retired[i].current.notAfter
    ensures var l, c := Run(events).ledger, Run(events).retired[i].current;
            && c !in l.stored.Values
            && forall r: Request<U> | c == r.cert || Some(c) == r.seen :: !Rotates(l, r)
  {
    RunKeeps(events);
    TimeKeeps(Run(events), Clock(events), now);
    var c := Run(events).retired[i].current;
    assert WasRetired(Run(events), c);
    RetiredIsLedgered(Run(events), c, now);
  }

  /** If the certificates that rotations retire have not expired, each rotation replaces exactly the certificate its
      request had read, however many requests read it, and each certificate is rotated away at most once. */
  lemma RotationIsCompareAndSet<U(!new)>(events: seq<Timed<U>>, i: nat)
    requires Proper(events) && InTime(Run(events)) && i < |Run(events).retired|
    ensures Run(events).retired[i].replaced == Run(events).retired[i].current
    ensures forall j | i < j < |Run(events).retired| :: Run(events).retired[j].current != Run(events).retired[i].current
  {
    RunKeeps(events);
    forall j | i < j < |Run(events).retired| ensures Run(events).retired[j].current != Run(events).retired[i].current {
      RetiredAgain(events, i, j);
    }
  }

  /** Only an expired certificate can be rotated away a second time. */
  lemma {:induction false} RetiredAgain<U(!new)>(events: seq<Timed<U>>, i: nat, j: nat)
    requires Proper(events) && i < j < |Run(events).retired|
    ensures var log := Run(events).retired;
            log[j].current == log[i].current ==> log[i].current.notAfter <= log[j].at
    decreases |events|
  {
    hide Inv, Rotate, Collect;
    assert events != [];
    var before, t := events[..|events| - 1], events[|events| - 1];
    var s, log := Run(before), Run(events).retired;
    RunKeeps(before);
    TimeKeeps(s, Clock(before), t.now);
    if j < |s.retired| {
      RetiredAgain(before, i, j);
      assert log[i] == s.retired[i] && log[j] == s.retired[j];
    } else {
      var c := log[i].current;
      assert log[i] == s.retired[i];
      assert WasRetired(s, c);
      if log[j].current == c && t.now < c.notAfter {
        RetiredIsLedgered(s, c, t.now);
      }
    }
  }

  // ---- A stale request after garbage collection ----

  lemma Then<U(!new)>(events: seq<Timed<U>>, s: Sys<U>, t: Timed<U>, next: Sys<U>) returns (more: seq<Timed<U>>)
    requires Proper(events) && Run(events) == s && Clock(events) <= t.now
    requires Enabled(s, t.event) && next == Step(s, t)
    ensures Proper(more) && Run(more) == next && Clock(more) == t.now && more == events + [t]
  {
    hide Step, Enabled;
    more := events + [t];
    assert more[..|more| - 1] == events;
  }

  /** One device; nothing else matters for the example. */
  function One<U(==)>(stored: Cert<U>, oldCerts: map<Cert<U>, int>, requests: set<Request<U>>,
                      retired: seq<Rotation<U>>, collected: int): Sys<U>
  {
    Sys(Ledger(map[stored.owner := stored], oldCerts), requests, retired, collected)
  }

  /** Three certificates of one device. */
  predicate OneOwner<U(==)>(a: Cert<U>, b: Cert<U>, d: Cert<U>)
  {
    a.owner == b.owner == d.owner && a != b && a != d && b != d
  }

  lemma StartsProper<U(!new)>()
    ensures Proper<U>([]) && Run<U>([]) == Start() && Clock<U>([]) == BEGINNING
  {
  }

  /** Certificate `a` is stored, and requests with `b` and `d` have both read it. */
  lemma TwoReaders<U(!new)>(a: Cert<U>, b: Cert<U>, d: Cert<U>, t: int) returns (events: seq<Timed<U>>)
    requires OneOwner(a, b, d) && BEGINNING <= t
    ensures Proper(events) && Clock(events) == t
    ensures Run(events) == One(a, map[], {Request(b, Some(a)), Request(d, Some(a))}, [], BEGINNING)
  {
    hide Run, Proper, Clock;
    StartsProper<U>();
    var s1 := Sys(Ledger(map[], map[]), {Request(a, None)}, [], BEGINNING);
    events := Then([], Start(), Timed(t, Arrive(a)), s1);
    var s2 := One(a, map[], {}, [], BEGINNING);
    CreateOne(a, t);
    events := Then(events, s1, Timed(t, Finish(Request(a, None))), s2);
    var s3 := One(a, map[], {Request(b, Some(a))}, [], BEGINNING);
    events := Then(events, s2, Timed(t, Arrive(b)), s3);
    events := Then(events, s3, Timed(t, Arrive(d)),
                   One(a, map[], {Request(b, Some(a)), Request(d, Some(a))}, [], BEGINNING));
  }

  lemma CreateOne<U(!new)>(a: Cert<U>, t: int)
    ensures Step(Sys(Ledger(map[], map[]), {Request(a, None)}, [], BEGINNING), Timed(t, Finish(Request(a, None))))
            == One(a, map[], {}, [], BEGINNING)
  {
    assert {Request(a, None)} - {Request(a, None)} == {};
  }

  /** The first reader rotates the expired certificate away, and its row is collected at once. */
  lemma FirstReader<U(!new)>(a: Cert<U>, b: Cert<U>, d: Cert<U>, t: int) returns (events: seq<Timed<U>>)
    requires OneOwner(a, b, d) && BEGINNING <= t && a.notAfter <= t
    ensures Proper(events) && Clock(events) == t
    ensures Run(events) == One(b, map[], {Request(d, Some(a))}, [Rotation(a, b, a, t)], t)
  {
    hide Run, Proper, Clock;
    var early, late := Request(b, Some(a)), Request(d, Some(a));
    events := TwoReaders(a, b, d, t);
    assert {early, late} - {early} == {late};
    var rotated := One(b, map[a := t], {late}, [Rotation(a, b, a, t)], BEGINNING);
    events := Then(events, One(a, map[], {early, late}, [], BEGINNING), Timed(t, Finish(early)), rotated);
    assert Collect(Ledger(map[b.owner := b], map[a := t]), t).oldCerts == map[];
    events := Then(events, rotated, Timed(t, Gc), One(b, map[], {late}, [Rotation(a, b, a, t)], t));
  }

  /** For every certificate `a` and every time `t` from its expiry on: two requests read `a`, the first one rotates it,
      its row is collected, and the second one then overwrites what the first one stored, which is neither stored nor
      retired from then on. */
  lemma StaleRequestOverwrites<U(!new)>(a: Cert<U>, b: Cert<U>, d: Cert<U>, t: int) returns (events: seq<Timed<U>>)
    requires OneOwner(a, b, d) && BEGINNING <= t && a.notAfter <= t
    ensures Proper(events)
    ensures Run(events).retired == [Rotation(a, b, a, t), Rotation(a, d, b, t)]
    ensures b !in Run(events).ledger.oldCerts && b !in Run(events).ledger.stored.Values
  {
    hide Run, Proper, Clock;
    var late := Request(d, Some(a));
    events := FirstReader(a, b, d, t);
    assert {late} - {late} == {};
    events := Then(events, One(b, map[], {late}, [Rotation(a, b, a, t)], t), Timed(t, Finish(late)),
                   One(d, map[a := t], {}, [Rotation(a, b, a, t), Rotation(a, d, b, t)], t));
  }

  // ---- Which rule makes rotations safe ----

  /** A rule says which certificates may be rotated away at which times. */
  predicate Follows<U>(s: Sys<U>, rule: (Cert<U>, int) -> bool)
  {
    forall i | 0 <= i < |s.retired| :: rule(s.retired[i].current, s.retired[i].at)
  }

  predicate CompareAndSet<U(==)>(s: Sys<U>)
  {
    && (forall i | 0 <= i < |s.retired| :: s.retired[i].replaced == s.retired[i].current)
    && (forall i, j | 0 <= i < j < |s.retired| :: s.retired[i].current != s.retired[j].current)
  }

  ghost predicate Safe<U(!new)>(rule: (Cert<U>, int) -> bool)
  {
    forall events: seq<Timed<U>> | Proper(events) && Follows(Run(events), rule) :: CompareAndSet(Run(events))
  }

  /** The rule admits no expired certificate. */
  ghost predicate UnexpiredOnly<U(!new)>(rule: (Cert<U>, int) -> bool)
  {
    forall c: Cert<U>, t: int | BEGINNING <= t && rule(c, t) :: t < c.notAfter
  }

  lemma {:induction false} RotatedLater<U(!new)>(events: seq<Timed<U>>, i: nat)
    requires Proper(events) && i < |Run(events).retired|
    ensures BEGINNING <= Run(events).retired[i].at
    decreases |events|
  {
    hide Rotate, Collect;
    if events != [] {
      var before, t := events[..|events| - 1], events[|events| - 1];
      ClockStarts(before);
      if i < |Run(before).retired| { RotatedLater(before, i); }
    }
  }

  lemma {:induction false} ClockStarts<U(!new)>(events: seq<Timed<U>>)
    requires Proper(events)
    ensures BEGINNING <= Clock(events)
  {
    if events != [] { ClockStarts(events[..|events| - 1]); }
  }

  lemma ExpiredIsUnsafe<U(!new)>(rule: (Cert<U>, int) -> bool, a: Cert<U>, t: int)
    requires BEGINNING <= t && rule(a, t) && a.notAfter <= t
    ensures !Safe(rule)
  {
    hide Run, Proper;
    var b, d := a.(body := a.body + 1), a.(body := a.body + 2);
    var events := StaleRequestOverwrites(a, b, d, t);
    var s := Run(events);
    assert Follows(s, rule) && s.retired[1].replaced != s.retired[1].current;
  }

  /** A rule for when to rotate makes every rotation of every run replace exactly what its request had read, and each
      certificate be rotated away at most once, if and only if the rule admits no expired certificate. */
  lemma SafeIffUnexpiredOnly<U(!new)>(rule: (Cert<U>, int) -> bool)
    ensures Safe(rule) <==> UnexpiredOnly(rule)
  {
    hide Run, Proper;
    if UnexpiredOnly(rule) {
      forall events: seq<Timed<U>> | Proper(events) && Follows(Run(events), rule) ensures CompareAndSet(Run(events)) {
        var s := Run(events);
        forall i | 0 <= i < |s.retired| ensures s.retired[i].at < s.retired[i].current.notAfter {
          RotatedLater(events, i);
        }
        forall i | 0 <= i < |s.retired|
          ensures s.retired[i].replaced == s.retired[i].current
          ensures forall j | i < j < |s.retired| :: s.retired[i].current != s.retired[j].current
        {
          RotationIsCompareAndSet(events, i);
        }
      }
    } else {
      var a: Cert<U>, t: int :| BEGINNING <= t && rule(a, t) && a.notAfter <= t;
      ExpiredIsUnsafe(rule, a, t);
    }
  }
}
