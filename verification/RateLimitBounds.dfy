/** How far the rate limiter limits: how many requests of one identifier pass, and how long a refusal lasts, said of
    runs by the times of their events and the answers to them. */
module RateLimitBounds {
  import opened TextLines
  import opened RateLimits
  import opened RateLimitRuns

  // ---- How many requests pass ----

  /** The identifier of the last event was flagged at that very instant before. */
  predicate FlaggedNow<K(==)>(events: seq<Event<K>>)
    requires events != []
  {
    var e := events[|events| - 1];
    exists j :: 0 <= j < |events| - 1 && events[j].flag && events[j].id == e.id && events[j].now == e.now
  }

  /** The last event is a request of the identifier, at time `t` or later, that passes. */
  predicate Passes<K(==)>(c: Config, events: seq<Event<K>>, id: K, t: real)
    requires events != []
  {
    var e := events[|events| - 1];
    e.id == id && !e.flag && t <= e.now && Answer(c, events) == None
  }

  /** How many requests of the identifier pass from time `t` on, those at an instant of a flag aside. */
  function Passed<K(==)>(c: Config, events: seq<Event<K>>, id: K, t: real): nat
  {
    if events == [] then 0
    else
      Passed(c, events[..|events| - 1], id, t) + if Passes(c, events, id, t) && !FlaggedNow(events) then 1 else 0
  }

  /** What one more second, and each second since `t`, lets through. */
  function Room(c: Config, t: real, now: real): real
  {
    Gain(now - t + 1.0, c.attemptsPerSecond as real)
  }

  lemma UnitGain(rate: real)
    ensures Gain(0.0, rate) == 0.0 && Gain(1.0, rate) == rate
  {
  }

  lemma GainIsPositive(elapsed: real, rate: real)
    requires 0.0 < elapsed && 0.0 < rate
    ensures 0.0 < Gain(elapsed, rate)
  {
  }

  lemma RoomGrows(c: Config, t: real, s: real, now: real)
    requires Sane(c)
    ensures Room(c, t, now) == Room(c, t, s) + Gain(now - s, c.attemptsPerSecond as real)
    ensures s <= now ==> Room(c, t, s) <= Room(c, t, now)
    ensures t <= now ==> c.attemptsPerSecond as real <= Room(c, t, now)
    ensures s + 1.0 <= now ==> Room(c, t, s) + c.attemptsPerSecond as real <= Room(c, t, now)
  {
    var a := c.attemptsPerSecond as real;
    GainAdds(s - t + 1.0, now - s, a);
    assert (s - t + 1.0) + (now - s) == now - t + 1.0;
    UnitGain(a);
    hide Gain;
    if s <= now { GainGrows(0.0, now - s, a); }
    if t <= now { GainGrows(1.0, now - t + 1.0, a); }
    if s + 1.0 <= now { GainGrows(1.0, now - s, a); }
  }

  /** Tokens are used up only at the instant of a flag. */
  predicate Charged<K(==)>(events: seq<Event<K>>, id: K, v: Limiter)
  {
    && v.authLimit.tokens >= 0.0 && v.rateLimit.tokens >= 0.0
    && (v.authLimit.tokens > 0.0
        || exists j :: 0 <= j < |events| && events[j].flag && events[j].id == id && events[j].now == v.authLimit.last)
  }

  lemma ChargedGrows<K>(events: seq<Event<K>>, e: Event<K>, id: K, v: Limiter)
    requires Charged(events, id, v)
    ensures Charged(events + [e], id, v)
  {
    if j :| 0 <= j < |events| && events[j].flag && events[j].id == id && events[j].now == v.authLimit.last {
      assert (events + [e])[j] == events[j];
    }
  }

  lemma ReactCharges<K>(c: Config, events: seq<Event<K>>, e: Event<K>, v: Limiter)
    requires Charged(events, e.id, v) && Sane(c)
    ensures Charged(events + [e], e.id, React(c, v, e).0)
  {
    ChargedGrows(events, e, e.id, v);
    hide TokensAt;
    assert (events + [e])[|events|] == e;
  }

  lemma FreshIsCharged<K>(c: Config, events: seq<Event<K>>, id: K)
    requires Sane(c)
    ensures Charged(events, id, Fresh(c))
  {
  }

  /** A request that meets used-up tokens comes at the instant of a flag. */
  lemma UsedUpIsFlagged<K>(c: Config, events: seq<Event<K>>, v: Limiter, e: Event<K>)
    requires Sane(c) && Charged(events, e.id, v) && v.authLimit.last <= e.now && AtZero(c, v, e)
    ensures FlaggedNow(events + [e])
  {
    var all, rate := events + [e], 1.0 / 60.0;
    UnitGain(rate);
    if v.authLimit.last < e.now { GainIsPositive(e.now - v.authLimit.last, rate); }
    hide Gain;
    assert e.now == v.authLimit.last && v.authLimit.tokens <= 0.0;
    var j :| 0 <= j < |events| && events[j].flag && events[j].id == e.id && events[j].now == v.authLimit.last;
    assert all[j] == events[j] && all[|all| - 1] == e;
  }

  /** What limits one identifier: what passed since `t` and the tokens left fit into the room since `t`. */
  predicate Limits<K(==)>(c: Config, events: seq<Event<K>>, g: Gen<K, Limiter>, id: K, t: real)
  {
    var j, n := LastTouch(events, id), Passed(c, events, id, t) as real;
    && (j < 0 || events[j].now < t ==> n == 0.0)
    && (j >= 0 && t <= events[j].now ==> n <= Room(c, t, events[j].now))
    && (Find(g, id).Some? ==>
          && j >= 0 && Read(Find(g, id).value, events[j].now) && Charged(events, id, Find(g, id).value)
          && (t <= events[j].now ==> n + RateTokens(c, Find(g, id).value, events[j].now) <= Room(c, t, events[j].now)))
  }

  /** What the limiter of the next event leaves of the room. */
  lemma RoomLeft<K>(c: Config, events: seq<Event<K>>, g: Gen<K, Limiter>, e: Event<K>, t: real)
    requires Sane(c) && Limits(c, events, g, e.id, t) && Kept(c, events, Swept(g, e), e.now)
    requires g.front.Keys !! g.back.Keys && 0.0 <= e.now
    requires forall i | 0 <= i < |events| :: 0.0 <= events[i].now <= e.now
    ensures var v := Limited(c, g, e);
            && Read(v, e.now) && Charged(events, e.id, v)
            && (t <= e.now ==> Passed(c, events, e.id, t) as real + RateTokens(c, v, e.now) <= Room(c, t, e.now))
    ensures e.now < t ==> Passed(c, events, e.id, t) == 0
  {
    hide LastTouch, Charged, KeptSince, SweepAge, Passed, Room;
    var j, v, a := LastTouch(events, e.id), Limited(c, g, e), c.attemptsPerSecond as real;
    RoomGrows(c, t, if j >= 0 then events[j].now else e.now, e.now);
    SweptFinds(g, e, e.id);
    if Find(Swept(g, e), e.id).Some? {
      TokensLater(v.rateLimit, a, a, events[j].now, e.now);
    } else {
      FreshTokens(c, e.now);
      FreshIsCharged(c, events, e.id);
      if j >= 0 { DroppedIsOld(c, events, Swept(g, e), e, j); }
    }
  }

  lemma DroppedIsOld<K>(c: Config, events: seq<Event<K>>, g: Gen<K, Limiter>, e: Event<K>, j: nat)
    requires Sane(c) && Kept(c, events, g, e.now) && j < |events| && events[j].id == e.id && Find(g, e.id).None?
    ensures events[j].now + 1.0 <= e.now
  {
    assert KeptSince(g, events[j].id, events[j].now);
  }

  /** A request that passes spends a token, unless tokens are used up; nothing else changes the rate tokens. */
  lemma PassSpends<K>(c: Config, v: Limiter, e: Event<K>)
    requires Sane(c) && Read(v, e.now)
    ensures var r := React(c, v, e);
            && Read(r.0, e.now)
            && RateTokens(c, r.0, e.now) <= RateTokens(c, v, e.now)
            && (!e.flag && r.1 == None && v.blockUntil <= e.now && !AtZero(c, v, e) ==>
                 RateTokens(c, r.0, e.now) == RateTokens(c, v, e.now) - 1.0)
  {
    hide TokensAt;
    if RateTokens(c, v, e.now) >= 1.0 {
      SpentTokens(v.rateLimit, c.attemptsPerSecond as real, c.attemptsPerSecond as real, e.now);
    }
  }

  // ---- Blocks and their reasons ----

  /** A block and its reason end together. */
  predicate Marked(v: Limiter)
  {
    v.blockUntil == if v.blockReason.Some? then v.blockReason.value.until else 0.0
  }

  predicate AllMarked<K(==)>(g: Gen<K, Limiter>)
  {
    (forall k | k in g.front :: Marked(g.front[k])) && (forall k | k in g.back :: Marked(g.back[k]))
  }

  lemma ReactMarks<K>(c: Config, v: Limiter, e: Event<K>)
    requires Marked(v)
    ensures Marked(React(c, v, e).0)
  {
  }

  lemma StepMarks<K>(c: Config, g: Gen<K, Limiter>, e: Event<K>)
    requires AllMarked(g)
    ensures AllMarked(Step(c, g, e)) && Marked(Limited(c, g, e))
  {
    hide React;
    ReactMarks(c, Limited(c, g, e), e);
  }

  lemma {:induction false} RunIsMarked<K>(c: Config, events: seq<Event<K>>)
    ensures AllMarked(Run(c, events))
  {
    hide AllMarked, Step;
    if events != [] {
      RunIsMarked(c, events[..|events| - 1]);
      StepMarks(c, Run(c, events[..|events| - 1]), events[|events| - 1]);
    } else {
      NobodyIsMarked<K>(c);
    }
  }

  lemma NobodyIsMarked<K>(c: Config)
    ensures AllMarked(Gen<K, Limiter>.Gen(map[], map[], 0.0, SweepAge(c)))
  {
  }

  // ---- The limit over a run ----

  lemma TokensAreLeft<K>(c: Config, events: seq<Event<K>>, id: K, v: Limiter, now: real)
    requires Sane(c) && Charged(events, id, v)
    ensures 0.0 <= RateTokens(c, v, now)
  {
    var elapsed := if now < v.rateLimit.last then 0.0 else now - v.rateLimit.last;
    UnitGain(c.attemptsPerSecond as real);
    GainGrows(0.0, elapsed, c.attemptsPerSecond as real);
    hide Gain;
  }

  /** A limiter without a reason has no block, so what it lets pass unflagged costs a token. */
  lemma UnflaggedPassSpends<K>(c: Config, events: seq<Event<K>>, v: Limiter, e: Event<K>)
    requires Sane(c) && Charged(events, e.id, v) && Read(v, e.now) && Marked(v) && 0.0 <= e.now
    requires !e.flag && React(c, v, e).1 == None && !FlaggedNow(events + [e])
    ensures RateTokens(c, React(c, v, e).0, e.now) == RateTokens(c, v, e.now) - 1.0
  {
    if AtZero(c, v, e) { UsedUpIsFlagged(c, events, v, e); }
    PassSpends(c, v, e);
    hide TokensAt, FlaggedNow, Charged;
  }

  /** What passed and the rate tokens left together do not grow at an event of the identifier itself. */
  lemma PotentialFalls<K>(c: Config, before: seq<Event<K>>, e: Event<K>, t: real)
    requires Sane(c) && 0.0 <= e.now
    requires var v := Limited(c, Run(c, before), e); Charged(before, e.id, v) && Read(v, e.now) && Marked(v)
    ensures var v := Limited(c, Run(c, before), e);
            && Passed(c, before + [e], e.id, t) as real + RateTokens(c, React(c, v, e).0, e.now)
            <= Passed(c, before, e.id, t) as real + RateTokens(c, v, e.now)
    ensures e.now < t ==> Passed(c, before + [e], e.id, t) == Passed(c, before, e.id, t)
  {
    hide React, Limited, Charged, FlaggedNow, Read, RateTokens, Marked, Sane, Run;
    var all, v := before + [e], Limited(c, Run(c, before), e);
    assert all[..|all| - 1] == before && all[|all| - 1] == e;
    PassSpends(c, v, e);
    if !e.flag && React(c, v, e).1 == None && !FlaggedNow(all) { UnflaggedPassSpends(c, before, v, e); }
  }

  /** The event of the identifier itself. */
  lemma OwnStepLimits<K>(c: Config, before: seq<Event<K>>, e: Event<K>, g: Gen<K, Limiter>, t: real)
    requires Sane(c) && g == Run(c, before) && Limits(c, before, g, e.id, t) && Kept(c, before, Swept(g, e), e.now)
    requires g.front.Keys !! g.back.Keys && 0.0 <= e.now
    requires forall i | 0 <= i < |before| :: 0.0 <= before[i].now <= e.now
    ensures Limits(c, before + [e], Step(c, g, e), e.id, t)
  {
    hide Charged, AllMarked, Read, Passed, React, Limited, Room, RateTokens, Swept, Marked, LastTouch, Promote, Stored;
    var all, v := before + [e], Limited(c, g, e);
    var r := React(c, v, e).0;
    LastTouchStep(all, e.id, |before|);
    assert all[..|before|] == before && all[|before|] == e;
    RoomLeft(c, before, g, e, t);
    RunIsMarked(c, before);
    StepMarks(c, g, e);
    TouchFinds(Swept(g, e), e.id, r, e.id);
    PassSpends(c, v, e);
    ReactCharges(c, before, e, v);
    TokensAreLeft(c, all, e.id, r, e.now);
    PotentialFalls(c, before, e, t);
  }

  lemma {:induction false} RunLimits<K>(c: Config, events: seq<Event<K>>, id: K, t: real)
    requires Timely(events) && Sane(c)
    ensures Limits(c, events, Run(c, events), id, t)
    decreases |events|
  {
    hide React, Limited, Charged, Room, FlaggedNow, Promote, Stored, KeptSince, SweepAge, RateTokens;
    if events == [] {
      LastTouchOfNone(events, id);
    } else {
      var n := |events| - 1;
      var before, e := events[..n], events[n];
      var g := Run(c, before);
      assert events == before + [e];
      RunLimits(c, before, id, t);
      RunIsKept(c, before);
      SweptKeeps(c, before, g, Clock(before), e.now);
      forall i | 0 <= i < n ensures 0.0 <= before[i].now <= e.now {
        assert before[i] == events[i];
      }
      if e.id == id {
        OwnStepLimits(c, before, e, g, t);
      } else {
        LastTouchStep(events, id, n);
        TouchFinds(Swept(g, e), e.id, React(c, Limited(c, g, e), e).0, id);
        SweptFinds(g, e, id);
        if Find(g, id).Some? { ChargedGrows(before, e, id, Find(g, id).value); }
      }
    }
  }

  /** Between two times pass at most as many requests of one identifier as the rate allows in that time and one second
      more, those at the very instant of one of its flags aside. */
  lemma RateIsLimited<K>(c: Config, events: seq<Event<K>>, id: K, t: real, u: real)
    requires Timely(events) && Sane(c) && t <= u && Clock(events) <= u
    ensures Passed(c, events, id, t) as real <= c.attemptsPerSecond as real * (u - t + 1.0)
  {
    RunLimits(c, events, id, t);
    var j := LastTouch(events, id);
    RoomGrows(c, t, if j >= 0 then events[j].now else t, u);
    RoomGrows(c, t, t, u);
    hide Passed;
    assert Room(c, t, u) == c.attemptsPerSecond as real * (u - t + 1.0);
    hide LastTouch, Find, Charged, Room;
  }
}
